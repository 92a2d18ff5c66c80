# WhatsApp session manager: a verified model of its core

The program keeps a catalog of saved Chrome profiles ("sessions") used to
reopen WhatsApp Web logins. The user drops archives or folders onto the
window. A background worker unpacks them with 7-Zip, looks for
Chrome-profile folders inside, and reports the sessions it found. Each
result becomes an *archive* record in the catalog, and the user files
archives under *categories*. The user can also add one session folder, or
an archive holding one session, directly. Finally, the user can delete
archives and sessions, and start Chrome on the sessions they select.

This Dafny project models that core, one module per concern:

| module | file | what it models |
|---|---|---|
| `Wrappers` | `wrappers.dfy` | `Option` and `Result` |
| `Paths` | `paths.dfy` | the `ntpath` functions the program uses (`basename`, `dirname`, `join`, `splitext`) with their drive-letter rule, `str.lower` on ASCII letters, `str.replace`, `is_session_name` |
| `FileSystem` | `filesystem.dfy` | a directory tree, and `os.walk` over it in top-down order |
| `Profile` | `profile.dfy` | the classifier `analyze_session_folder`; its two copies in the source are identical |
| `ArchiveTool` | `archive_tool.dfy` | the check sequence of `extract_with_7zip` |
| `Discovery` | `discovery.dfy` | `ExtractionWorker.run`, as the sequence of signals it emits |
| `Catalog` | `catalog.dfy` | the catalog as a value, each window operation on it as a function, and their rules as lemmas |
| `Manager` | `manager.dfy` | the window object `SessionManager`, whose fields are the two lists and the two current indices; its methods update them in place and are proved to perform the `Catalog` functions |
| `Launch` | `launch.dfy` | `open_sessions`: which sessions are opened, and which user-data directory each launch is given |

The environment is given as parameters:
- What exists at a path is a `Node` tree, or `fs: string -> Option<Node>`.
- What the extractor and `os.makedirs` do is an `Env`.
- Whether `shutil.rmtree` succeeds is `removeDir: string -> bool`.
- Dialog answers and typed names are plain arguments.
- The time stamp of a new category is `createdAt`.

The worker runs to completion before anything else happens. Its output is
the list of its signals (`Progress`, `Finished`, `Failed`). The window
applies the terminal signal to the catalog.

Category and archive references are list positions, as in the source.
Deleting a category therefore renumbers every archive's reference.
`Catalog.DeleteCategoryKeepsFiling` proves that this renumbering keeps
every archive on the category of the same record, or moves it to the root
when its category is the one deleted.

Behaviour of the code that a reader might not expect, which the model follows:
- **Duplicate archive paths are possible.** The catalog does not keep
  archive paths unique. `process_single_session` checks only session
  paths, so a folder already added whole can be added again as a single
  session (`Catalog.SessionPathDoesNotGuardArchivePath`). The invariant
  `Catalog.Valid` therefore covers only:
  - category references in range;
  - unique category names;
  - current indices in range.
- **Progress does not strictly increase.** It never decreases
  (`Discovery.RunWellFormed`), but values can repeat. A run over nested
  archives emits 100 after its last iteration when that archive
  succeeds, and 100 again when it finishes. With more than 60 archives, the truncated percentages also
  repeat.
- **Profile search inside a nested archive covers the whole tree.** When
  the extracted folder is not itself a profile, the worker walks all of
  it, not only one level. The first profile folder found anywhere replaces
  the path of the first session with that name.
- **The generic "nothing extracted" error cannot occur.** The nested loop
  only runs on at least one candidate, so an empty session list always
  comes with failures (`Discovery.NoGenericError`).
- **Deleting an archive is not best-effort.** The directory is removed
  before the record, inside the same `try`. A failed removal leaves the
  catalog unchanged.
- **Sessions are removed by name.** For each selected item, the first
  session with that name goes, and only if its directory could be
  removed.
- **The recorded extraction directory can be the wrong one.** It is the
  first session's path with every `\<session name>` removed. For a root
  that is itself a profile, this is the parent of the extraction
  directory (`Catalog.RootProfileExtractedPath`), and deleting the archive
  later removes that parent.

## Model

| member | source | states |
|---|---|---|
| Paths.Basename | main.py:641 | `ntpath.basename`: what follows the drive and the last separator; it holds no separator and ends the path |
| Paths.Dirname | main.py:786 | `ntpath.dirname`: a prefix of the path, made of the drive and the head without its trailing separators, or the whole head when it is all separators |
| Paths.Join | main.py:787 | `ntpath.join(a, b)` for a name `b` starts with `a` and ends with `b`; a separator goes between them unless `a` is empty, ends in one or is a bare drive |
| Paths.Stem | main.py:1606 | `os.path.splitext(name)[0]` is a prefix of the name |
| Paths.Extension | main.py:107 | `os.path.splitext(path)[1]` is a suffix of the path |
| Paths.NameStep | main.py:641 | on a path ending in a name character, `basename` keeps that character and `dirname` drops it |
| Paths.RootStep | main.py:2126 | on a path ending in a separator or a drive, `basename` is empty and `dirname` is the drive and the trimmed head |
| Paths.BasenameAppend | main.py:1963-1974 | after a path with an empty base name, a name is the whole base name |
| Paths.DirnameAppend | main.py:2126 | appending a name to a path leaves its `dirname` unchanged |
| Paths.BasenameOfJoin | main.py:1963-1974 | the base name of `join(dir, name)` is `name` |
| Paths.DirnameOfJoin | main.py:2126 | the directory of `join(dir, name)` is `dir` when `dir` has no trailing separator, a bare drive included |
| Paths.DirnameOfSep | main.py:2126 | `dirname` of `dir` followed by one separator is `dir` |
| Paths.DriveRootDirname | main.py:2126 | directly below a drive root (`X:\name`) the directory is the root `X:\` itself, and the base name is `name` |
| Paths.DoubledSeparatorDirname | main.py:2126 | a doubled separator before the last name goes whole: `dirname(dir\\name)` is `dir` for any `dir` that ends in a name character and is not a bare drive |
| Paths.BareDriveJoin | main.py:787 | `join('C:', 'b')` is `C:b` |
| Paths.DriveNotInBasename | main.py:641 | `basename('C:D')` is `D` |
| Paths.RootIsOwnDirname | main.py:2126 | `dirname('\')` is `\` |
| Paths.SessionNameOfJoin | main.py:639-642 | `is_session_name` depends only on the last path component |
| Paths.EndsWithFoldedIsLowerEndsWith | main.py:1929 | the case-folded suffix test is `lower()` followed by `endswith` |
| Paths.RemoveTrailingSegment | main.py:877 | `replace('\\' + name, '')` on `prefix\name` gives back `prefix` when `\name` does not occur in `prefix` |
| Paths.StemOfArchiveName | main.py:2007 | the stem of `base.ext` is `base` for a one-dot extension and a base that is not all dots |
| Paths.SessionPrefixExample | main.py:639-642 | `session-42` is a session name |
| Paths.WhatsAppExample | main.py:639-642 | `WhatsApp` is a session name, through its lower-cased form |
| Paths.Lower | main.py:642 | `str.lower` on ASCII: keeps the length and maps each ASCII capital to its small letter, position by position |
| Paths.LowerWhatsApp | main.py:642 | lower-casing maps `WhatsApp` to `whatsapp` |
| Paths.DefaultIsNotSessionName | main.py:639-642 | `Default` is not a session name |
| FileSystem.Child | main.py:2121 | something exists at `join(p, name)` exactly when the directory at `p` has an entry called `name`, and it is that entry |
| FileSystem.Dirs | main.py:1957 | the `dirs` of a walk step are exactly its sub-directories |
| FileSystem.Files | main.py:1927 | the `files` of a walk step are exactly its files |
| FileSystem.Walk | main.py:1927 | `os.walk(top)` starts with `top` itself, yields only listable directories, and yields nothing for a directory it cannot list |
| FileSystem.WalkOfFlatDir | main.py:1636-1641 | the walk of a directory without sub-directories is that directory alone |
| Profile.Present | main.py:2121 | `profile_files_present` holds exactly the marker names present in the folder |
| Profile.MarkersPresentIff | main.py:2122 | `profile_files_present` is non-empty exactly when some marker file is present |
| Profile.AnalyzeMeans | main.py:2093-2160 | a profile exactly when some rule holds; nothing at all for a missing, non-directory or unreadable path; `has_default_folder` exactly when `default_path` is set; that path is the parent for a marked `Default` and the folder itself otherwise |
| Profile.DefaultWithCookies | main.py:2119-2127 | a `Default` folder holding `Cookies` is a profile whose user-data directory is its parent |
| Profile.MarkerlessDefault | main.py:2129-2133 | a folder whose `Default` has no marker, and which has nothing else, gives (false, true, the folder) |
| Profile.EmptyDefaultFolder | main.py:2129-2133 | the same for a folder holding one empty `Default` |
| Profile.NothingToFind | main.py:2103-2113 | an empty folder, a file, an unreadable folder and a missing path give (false, false, None) |
| Profile.LocalStorageRule | main.py:2149-2154 | without own or `Default` markers, a folder is a profile exactly when `Local Storage\leveldb` exists |
| Profile.LocalStorageWithoutLevelDb | main.py:2150-2154 | `Local Storage` without `leveldb` inside is no profile |
| ArchiveTool.SpaceWarnings | main.py:213-224 | no warning exactly when the free space is known and at least 15 times the archive size |
| ArchiveTool.ExtractSucceedsIff | main.py:96-251 | the extraction succeeds exactly when every check passes, and then yields the non-empty output directory |
| ArchiveTool.ExtractFirstChecks | main.py:101-158 | a missing archive, one under 100 bytes, and a missing extractor each fail with their own error, in that order |
| ArchiveTool.RefusedWarnings | main.py:106-158 | an archive refused for its size or for want of the extractor has logged only the extension warning |
| ArchiveTool.SuccessWarnings | main.py:106-224 | a successful extraction has logged, in order, the extension, integrity-test and disk-space warnings |
| ArchiveTool.WarningsDoNotDecide | main.py:199-224 | the integrity test and the free space never change the outcome |
| ArchiveTool.UnusualExtensionOnlyWarns | main.py:106-109 | an unusual extension is logged but does not stop a good archive |
| ArchiveTool.SpaceThreshold | main.py:221 | exactly 15 times the size is enough, and one byte less is reported |
| ArchiveTool.SmallArchiveRefused | main.py:112-116 | a 99-byte archive is refused as too small |
| Discovery.ScanFiles | main.py:1928-1942 | the files of one walk step that are kept, in listing order |
| Discovery.ScanCandidates | main.py:1927-1942 | the loop collects the candidates of all walk steps, in walk order |
| Discovery.ScanFindsArchives | main.py:1927-1942 | a candidate is found exactly when it is a walked file with an archive extension in any case and at least 100 bytes, joined to its directory |
| Discovery.SearchDirs | main.py:1963-1977 | the profile folders among one step's sub-directories, in order |
| Discovery.SearchProfiles | main.py:1957-1977 | the loop collects the profile folders of all steps not too deep |
| Discovery.SearchFindsProfiles | main.py:1957-1977 | a session is reported exactly when it is a readable profile sub-directory of a step at most three levels down, named after its folder |
| Discovery.TopIsLevelZero | main.py:1959 | the working root is at level 0 |
| Discovery.ProfilesOfTopAreFound | main.py:1957-1977 | every readable profile folder directly inside the working root is reported |
| Discovery.FirstWhere | main.py:2043-2055 | the index of the first element that satisfies the test, or the length when none does |
| Discovery.FirstInMeans | main.py:2043-2055 | among one step's directories, nothing is found exactly when none is a profile, and otherwise the path of the first entry that is one |
| Discovery.NoProfileDirMeans | main.py:2043-2055 | a step has no profile folder exactly when the search among its directories finds none |
| Discovery.FirstProfileDirMeans | main.py:2039-2055 | the walk finds nothing exactly when no sub-directory of any step is a profile, and otherwise what the first step with one finds |
| Discovery.FirstStepShift | main.py:2039-2055 | behind a first step without a profile folder, the first step with one moves one place on |
| Discovery.FirstWhereNext | main.py:2043-2055 | one step of the search for the first match either stops at the current element or goes on past it |
| Discovery.FirstInDirs | main.py:2043-2055 | the inner loop returns the first profile folder among `dirs` |
| Discovery.FindProfileDir | main.py:2039-2055 | the `found_profile` loop returns the first profile folder of the walk |
| Discovery.FirstNamed | main.py:2049-2053 | the position of the first session with a name, or -1 when no session has it |
| Discovery.Redirect | main.py:2049-2053 | the `for session in sessions` loop repoints the first session with the name |
| Discovery.RedirectOnlyFirst | main.py:2049-2053 | only that session's path changes; the names, the length and every other session stay |
| Discovery.SessionProfile | main.py:2033-2058 | the session directory when it is a profile, else the first profile folder inside it |
| Discovery.AttemptOne | main.py:2007-2058 | one candidate: the directory creation, the extraction, and the profile search |
| Discovery.ExtractNested | main.py:2005-2070 | the loop over the nested archives computes the accumulated sessions, failures and progress |
| Discovery.Record | main.py:2018-2061 | the bookkeeping of one iteration |
| Discovery.Partition | main.py:2005-2070 | every attempt is counted either as a failure or as a success |
| Discovery.FoldOutcome | main.py:2005-2070 | after the loop the failures are exactly the failed attempts, in order; the session names are exactly the successful ones; one progress value per session |
| Discovery.PercentBounds | main.py:2060 | `int(40 + (i+1)/total*60)` lies in [40, 100], and is 100 only for the last archive |
| Discovery.PercentMonotone | main.py:2060 | the percentage never decreases with the iteration |
| Discovery.FoldProgress | main.py:2060-2061 | the loop's progress never decreases and stays between 40 and the value of its last iteration |
| Discovery.Numbered | main.py:2074 | the error report numbers every failure from 1, in order, with its path and reason |
| Discovery.OpenInput | main.py:1840-1904 | the checks and the outer extraction of an archive, or the checks of a folder |
| Discovery.DiscoverIn | main.py:1906-1998 | the root check, the scan, and then the nested extraction or the profile search |
| Discovery.SearchIn | main.py:1922-1998 | the stages after a root that is no profile |
| Discovery.RunWorker | main.py:1836-2091 | the signals `ExtractionWorker.run` emits, in order |
| Discovery.GoodReportEvents | main.py:1836-2091 | a report with progress in order and a good terminal signal gives well-formed signals |
| Discovery.NestedGood | main.py:2005-2061 | the nested loop's progress lies in [40, 100] and never decreases, with one value per session |
| Discovery.FinishGood | main.py:2072-2086 | finalising a loop state gives a good report |
| Discovery.SearchGood | main.py:1922-2086 | the stages after the root check give a good report |
| Discovery.ProfilesReportGood | main.py:1983-1998 | the profile search gives a good report |
| Discovery.DiscoverGood | main.py:1906-2086 | the second stage gives a good report |
| Discovery.OpenGood | main.py:1843-1904 | the first stage emits at most 5 and then 30 |
| Discovery.PlanGood | main.py:1836-2091 | every run gives a good report |
| Discovery.RunWellFormed | main.py:1836-2091 | every run emits progress in [0, 100] that never decreases, then exactly one terminal signal; a finished run is announced by 100 and has a session; a failed one never reached 100 |
| Discovery.SomeOutcome | main.py:2005-2081 | with at least one attempt, the loop ends with a session or with a failure |
| Discovery.NoGenericError | main.py:2072-2081 | the generic "nothing extracted" error is never emitted |
| Discovery.AllFailuresListed | main.py:2023-2028 | when every attempt fails, the failure list is all the attempts, in order |
| Discovery.AllFailedReport | main.py:2072-2081 | when every nested archive fails, the error lists each one, numbered from 1, with its path and reason |
| Discovery.SomeSucceeded | main.py:2018-2021 | one successful attempt leaves a session |
| Discovery.OneSuccessFinishes | main.py:2072-2086 | one success is enough for the run to finish, however many others fail |
| Discovery.RootProfileRun | main.py:1906-1920 | a working root that is a profile finishes at once, after 100, with the one session (its base name, its path) |
| Discovery.PlanOfOpened | main.py:1836-1998 | once the input is open, the run is the first stage's progress followed by the second stage |
| Discovery.OpenFolder | main.py:1892-1904 | a folder input emits 30 and becomes the working root itself |
| Discovery.FolderProfileRun | main.py:1892-1920 | a folder that is a profile emits 30, 100 and then finishes with itself as the one session |
| Catalog.RemoveAtElements | main.py:1038 | `pop(k)` shortens the list by one, shifts the later records down, and removes exactly the `k`-th record |
| Catalog.RemoveAtKeepsUnique | main.py:1038 | removing a category keeps the names unique |
| Catalog.AddCategoryRule | main.py:963-981 | a category is added exactly when the dialog is accepted with a new non-empty name; it goes at the end; only the category list changes; names stay unique |
| Catalog.RenameCategoryRule | main.py:983-1004 | renaming needs an index in range and a new non-empty name that no category has; only that record's name changes; names stay unique |
| Catalog.DeleteCategoryKeepsFiling | main.py:1029-1038 | after the renumbering and the `pop`, each archive changes only its reference, and sits on the same category record as before, or at the root if its category was the one deleted |
| Catalog.DeleteCategoryKeepsRefsInRange | main.py:1029-1038 | every reference stays within the shortened category list |
| Catalog.DeleteCategoryKeepsCurrent | main.py:1040-1044 | the current category is cleared when deleted, and otherwise still designates the same record |
| Catalog.DeleteCategoryRule | main.py:1006-1048 | an index in range, when confirmed, loses exactly that category and keeps the current archive; any other call changes nothing; the catalog stays well kept |
| Catalog.MoveRule | main.py:1050-1064 | a move with an archive index in range and a target in range or None changes only that archive's reference, to the target category or the root; any other call changes nothing |
| Catalog.FirstProfileRootMeans | main.py:1636-1641 | the walk finds no profile exactly when no step is one, and otherwise the first step that is |
| Catalog.AppendedShape | main.py:882-888 | appending keeps the earlier records and adds exactly the new one after them |
| Catalog.AppendKeepsValid | main.py:872-888 | a record filed under the current category keeps the catalog well kept |
| Catalog.FinishedNamesSource | main.py:1836-2091 | a finished run names the input after its base name and path, and carries a session |
| Catalog.CommitRule | main.py:872-888 | the terminal signal adds one archive exactly when the run finished, at the end, with the worker's non-empty sessions |
| Catalog.IngestArchiveRule | main.py:762-828 | an unreadable archive or a known path changes nothing; otherwise an archive is added exactly when the directory is created and the worker finishes |
| Catalog.IngestFolderRule | main.py:837-867 | a known path changes nothing; otherwise an archive is added exactly when the directory is created and the worker finishes |
| Catalog.IngestSingleSessionRule | main.py:1482-1524 | a folder already recorded as a session is refused; otherwise one archive is added whose one session, path and extraction directory are the folder |
| Catalog.SessionPathDoesNotGuardArchivePath | main.py:1486-1495 | two archives can end up with the same path |
| Catalog.IngestSessionArchiveRule | main.py:1590-1689 | a known path changes nothing; otherwise one archive is added exactly when the directory is created, the extraction succeeds and a profile is found or the user goes on; its one session is named after the stem and sits at the first profile found, or else at the extraction directory |
| Catalog.ProfileAtTop | main.py:1636-1641 | an extracted directory that is itself a profile is the session |
| Catalog.ExtractedPathOfSession | main.py:877 | for a first session `prefix\name` the extraction directory is `prefix` |
| Catalog.NestedExtractedPath | main.py:877 | for sessions from nested archives it is the worker's extraction directory, when that directory has a name of its own and does not already contain `\<session name>` |
| Catalog.NamedDirJoin | main.py:2007 | a directory with a name of its own is joined to a name with a separator |
| Catalog.RootProfileExtractedPath | main.py:877 | for a root `parent\name` that is itself a profile, the session is named `name` and the extraction directory recorded is `parent` |
| Catalog.DeleteArchiveRule | main.py:1174-1207 | the current archive goes exactly when the index is in range and the deletion is confirmed and its directory was removed; the other records keep their order, and nothing is selected afterwards |
| Catalog.RemoveFirstNamedRule | main.py:1456-1467 | one pass removes at most one session with the name, none with another name, and none whose directory cannot be removed |
| Catalog.RemoveFirstNamedEffect | main.py:1458-1467 | the list changes exactly when a session has the name and the first such session's directory is removed; then exactly that session goes, and the others keep their order |
| Catalog.DeleteByNamesRemovesOnlySelected | main.py:1456-1469 | the passes remove at most one session per selected name, none whose name was not selected, and none whose directory cannot be removed, whatever the other removals do; and for every selected name whose first session's directory can be removed, that session is removed |
| Catalog.DeleteByNamesBounds | main.py:1456-1469 | the upper bounds of the loop, by induction over the selected names |
| Catalog.DeleteByNamesRemovesFirst | main.py:1456-1469 | a selected name whose first session's directory can be removed loses that session |
| Catalog.DeleteByNamesKeepsFirstNamed | main.py:1458 | passes for other names keep the first session with a name the first one |
| Catalog.PassKeepsFirstNamed | main.py:1458 | one pass for another name keeps the first session with a name the first one |
| Catalog.RemoveAtKeepsFirstNamed | main.py:1458 | removing a session with another name keeps the first session with a name the first one |
| Catalog.FailedRemovalsKeepSessions | main.py:1461-1469 | when no directory can be removed, the session list is unchanged, order included |
| Catalog.FirstOfSameNameOnly | main.py:1458-1467 | of two sessions with the same name, only the first is removed |
| Catalog.SessionsDeletedRule | main.py:1429-1473 | only the current archive's session list can change; the archive stays, even if it becomes empty |
| Catalog.Members | main.py:1082-1091 | the archives listed under a reference are exactly those that carry it, in list order |
| Catalog.TreeListing | main.py:1076-1091 | an archive is listed under category `i` exactly when its reference is `i`, at the root exactly when it has none, and nowhere when its reference is out of range |
| Manager.FindCategoryName | main.py:969 | the loop finds a category exactly when one has the name |
| Manager.FindArchivePath | main.py:774-782 | the loop finds an archive exactly when one has the path |
| Manager.FindSessionPath | main.py:1486-1495 | the nested loops find a session exactly when one in any archive has the path |
| Manager.FindFirstNamed | main.py:1458 | the position of the first session with the name |
| Manager.FindProfileRoot | main.py:1636-1641 | the walk loop stops at the first profile |
| Manager.UnpackSessionArchive | main.py:1594-1661 | the duplicate check, the directory creation and the extraction of a single-session archive |
| Manager.RecordExtracted | main.py:1626-1681 | the record built after the extraction, or none when the user declines |
| Manager.RemoveSessionsNamed | main.py:1456-1469 | the loop over the selected items |
| Manager.SessionManager.constructor | main.py:598-601 | an empty catalog with nothing selected |
| Manager.SessionManager.AddCategory | main.py:963-981 | performs `Catalog.WithCategory` in place, keeping the catalog well kept |
| Manager.SessionManager.RenameCategory | main.py:983-1004 | performs `Catalog.Renamed` in place |
| Manager.SessionManager.DeleteCategory | main.py:1006-1048 | the renumbering loop, the `pop` and the index fix-up perform `Catalog.CategoryDeleted` |
| Manager.SessionManager.MoveArchiveToCategory | main.py:1050-1064 | performs `Catalog.Moved` in place |
| Manager.SessionManager.ExtractionFinished | main.py:872-888 | appends the finished archive and makes it current |
| Manager.SessionManager.ProcessArchive | main.py:762-828 | performs `Catalog.IngestArchive` through the worker's run |
| Manager.SessionManager.ProcessFolder | main.py:837-867 | performs `Catalog.IngestFolder` through the worker's run |
| Manager.SessionManager.ProcessSingleSession | main.py:1482-1524 | performs `Catalog.IngestSingleSession` in place |
| Manager.SessionManager.ProcessSingleSessionArchive | main.py:1590-1689 | performs `Catalog.IngestSessionArchive` in place |
| Manager.SessionManager.DeleteSelectedArchive | main.py:1174-1207 | performs `Catalog.ArchiveDeleted` in place |
| Manager.SessionManager.DeleteSelectedSessions | main.py:1429-1473 | performs `Catalog.SessionsDeleted` in place |
| Launch.PickedMeans | main.py:1340-1348 | each session picked is the first with one of the selected names; each selected name that exists yields its first session; one session per name when all exist |
| Launch.NothingSelectedOpensAll | main.py:1349-1352 | with nothing selected, every session is opened, in order |
| Launch.SessionsToOpen | main.py:1336-1352 | the loop over the selected items computes the opening set |
| Launch.LaunchDirMeans | main.py:1365-1369 | Chrome is given the parent of a marked `Default` folder and the session folder in every other case |
| Launch.DefaultAtDriveRoot | main.py:1365-1369 | a marked `Default` folder directly below a drive root is launched with the root `X:\` |
| Launch.LaterLaunchShape | main.py:1395-1417 | a later session is launched exactly when something exists at its path, with its user-data directory and without the new-window flag, and is reported missing with its path otherwise |
| Launch.LaterLaunchesMeans | main.py:1392-1417 | one attempt per later session, each checked against what exists at its path |
| Launch.LaunchesMeans | main.py:1361-1417 | one launch per session; only the first opens a new window, and it is launched without its folder being checked; a later session is launched exactly when its folder exists, and reported missing otherwise |
| Launch.OpenPlanRule | main.py:1298-1356 | Chrome starts exactly when an archive is current, it has sessions, Chrome exists and some session is to be opened; on a well-kept catalog the index error cannot happen |
| Launch.PlanLaunches | main.py:1392-1417 | the loop over the later sessions computes the launches |
| Launch.OpenSessions | main.py:1298-1427 | `open_sessions` performs `Launch.OpenPlan` |

## Left out

- The Qt user interface is not modelled: widgets, style sheets, message boxes, context menus and drag and drop. Dialog answers are parameters.
- The automatic selection in `refresh_categories_tree` (main.py:1093-1097) is not modelled. It is tree-widget state, and it would rewrite the current indices after every refresh.
- `on_tree_item_clicked`, `load_sessions_for_current_archive` and `process_path` are not modelled. They concern UI selection and dispatch.
- `add_single_session` (main.py:1552-1588) is not modelled: its file-or-folder dispatch and its confirmation dialog. The two operations it calls are modelled.
- Manager.SessionManager.DeleteSelectedArchive: does not model the index fix-up loop over tree items (main.py:1199-1204), because those items are rebuilt right afterwards.
- The worker thread, its signals and the replaceable `self.worker` slot are not modelled. The run is sequential, and its signals are returned as a list.
- Process launching is not modelled: `run_process`, the search for `7z.exe`, `get_chrome_path`, `subprocess.Popen` and `time.sleep`. Whether 7-Zip and Chrome were found is a parameter.
- Launch.OpenSessions: does not model a failure of the first `Popen` (main.py:1377-1385) or of a later one (main.py:1418-1422). Starting a process is outside the model.
- `safe_decode` is not modelled: it depends on codec tables. Nor are the wording and translation of error messages in `extraction_error`. Errors are typed values.
- `save_data` and `load_data` are not modelled: JSON and file I/O.
- `time.time` is not modelled: `createdAt` is a parameter.
- Logging is not modelled.
- `shutil.disk_usage` is not modelled: the free space is an input, and it only produces warnings.
- Discovery.Percent: models the floating-point progress formula as the integer `40 + (i + 1) * 60 / total`. That expression mirrors the source's truncation, up to float rounding.
- Removing a stale extraction directory before unpacking is not modelled. Its failure only warns and does not change the outcome.
- Walk order is taken as the order of the `Node`'s entries; symbolic links are not modelled.
- Path case-insensitivity on Windows is not modelled: paths are compared as exact strings, as the source compares them.
- Paths.Basename: UNC shares (`\\server\share`) are not treated as drives, so the share name is not kept out of the base name. The program's paths come from drive-letter folders and dropped files.
- Paths.Dirname: UNC shares are not treated as drives, so `dirname` of a share root differs from `ntpath`'s.
- Paths.Join: a second argument that itself carries a drive or a root is not modelled. The program joins only names, and Windows names hold no `:`.
- Paths.Lower: folds ASCII capitals only. Python's `str.lower` also folds other letters and can lengthen a string (`'İ'.lower()` has two characters). The program compares the folded text only with `whatsapp`, `.zip`, `.rar` and `.7z`. So only a non-ASCII name that folds to one of these is decided differently, together with the extension text in the logged warning.
