/**
 * The catalog kept by the session manager window: the user's categories
 * and the archives (each with its sessions) in two lists, and the two
 * "current" indices the window selects with. Categories are referred to
 * by their position in the list, so every operation here is list and
 * index bookkeeping. This module states each operation on the catalog as
 * a value; the class in module `Manager` performs them in place.
 */
module Catalog {
  import opened Wrappers
  import opened Paths
  import opened FileSystem
  import opened Profile
  import opened ArchiveTool
  import opened Discovery

  /** A user category; `createdAt` is the `time.time()` stamp, given as a number. */
  datatype Category = Category(name: string, createdAt: int)

  /**
   * An archive, a folder or a single session the user added: its display
   * name, where it came from, the directory its files were extracted to,
   * its sessions, and the position of its category (None: the root).
   */
  datatype Archive = Archive(
    name: string,
    path: string,
    extractedPath: string,
    sessions: seq<Session>,
    categoryIndex: Option<nat>,
    isSingleSession: bool,
    isUnpackedArchive: bool)

  /** Everything the catalog operations read and write. */
  datatype Store = Store(categories: seq<Category>, archives: seq<Archive>, currentArchive: int, currentCategory: int)

  /** The display-name prefixes of a single session and of a single session unpacked from an archive. */
  const SingleSessionPrefix: string := "Сессия: "
  const SessionArchivePrefix: string := "Сессия из архива: "

  const ExtractedPrefix: string := "extracted_"
  const ExtractedSinglePrefix: string := "extracted_single_"

  // ---------------------------------------------------------------------
  // What a well-kept catalog satisfies

  /** Every archive filed under a category points at an existing one. */
  predicate RefsInRange(archives: seq<Archive>, n: nat)
  {
    forall j :: 0 <= j < |archives| && archives[j].categoryIndex.Some? ==> archives[j].categoryIndex.value < n
  }

  predicate UniqueNames(cats: seq<Category>)
  {
    forall i, j :: 0 <= i < j < |cats| ==> cats[i].name != cats[j].name
  }

  /**
   * The invariant the operations keep: category references in range,
   * distinct category names, and current indices that are -1 or in range.
   * Archive paths need not be distinct (`SessionPathDoesNotGuardArchivePath`).
   */
  predicate Valid(s: Store)
  {
    && RefsInRange(s.archives, |s.categories|)
    && UniqueNames(s.categories)
    && -1 <= s.currentCategory < |s.categories|
    && -1 <= s.currentArchive < |s.archives|
  }

  /** `any(category['name'] == name for category in self.categories)` */
  predicate NameTaken(cats: seq<Category>, name: string)
  {
    exists i :: 0 <= i < |cats| && cats[i].name == name
  }

  /** Some archive was added from `path`. */
  predicate PathTaken(archives: seq<Archive>, path: string)
  {
    exists j :: 0 <= j < |archives| && archives[j].path == path
  }

  /** Some session of some archive lives at `path`. */
  predicate SessionPathTaken(archives: seq<Archive>, path: string)
  {
    exists j, i :: 0 <= j < |archives| && 0 <= i < |archives[j].sessions| && archives[j].sessions[i].path == path
  }

  /** `list.pop(k)`: the list without its `k`-th element. */
  function RemoveAt<T>(s: seq<T>, k: nat): seq<T>
    requires k < |s|
  {
    s[..k] + s[k + 1..]
  }

  /** Removing one element keeps the others in order and loses exactly that one. */
  lemma RemoveAtElements<T>(s: seq<T>, k: nat)
    requires k < |s|
    ensures |RemoveAt(s, k)| == |s| - 1
    ensures forall i :: 0 <= i < |s| - 1 ==> RemoveAt(s, k)[i] == s[if i < k then i else i + 1]
    ensures multiset(RemoveAt(s, k)) + multiset{s[k]} == multiset(s)
  {
    assert s == s[..k] + [s[k]] + s[k + 1..];
  }

  lemma RemoveAtKeepsUnique(cats: seq<Category>, k: nat)
    requires k < |cats| && UniqueNames(cats)
    ensures UniqueNames(RemoveAt(cats, k))
  {
    RemoveAtElements(cats, k);
  }

  // ---------------------------------------------------------------------
  // Adding and renaming categories

  /** `add_category` after the dialog returned `name` with `ok`. */
  function WithCategory(s: Store, name: string, ok: bool, createdAt: int): Store
  {
    if ok && name != [] && !NameTaken(s.categories, name) then s.(categories := s.categories + [Category(name, createdAt)])
    else s
  }

  /**
   * A category is added exactly when the dialog was accepted with a
   * non-empty name no category has; it goes at the end, and the names stay
   * distinct. Nothing but the category list changes.
   */
  lemma AddCategoryRule(s: Store, name: string, ok: bool, createdAt: int)
    ensures var s' := WithCategory(s, name, ok, createdAt);
            && s'.(categories := s.categories) == s
            && (s' != s <==> ok && name != [] && !NameTaken(s.categories, name))
            && (s' != s ==> s'.categories == s.categories + [Category(name, createdAt)])
            && (UniqueNames(s.categories) ==> UniqueNames(s'.categories))
            && (Valid(s) ==> Valid(s'))
  {
    var s' := WithCategory(s, name, ok, createdAt);
    if s' != s {
      assert |s'.categories| == |s.categories| + 1;
    }
  }

  /** `rename_category(k)` after the dialog returned `name` with `ok`. */
  function Renamed(s: Store, k: int, name: string, ok: bool): Store
  {
    if k < 0 || k >= |s.categories| then s
    else if ok && name != [] && name != s.categories[k].name && !NameTaken(s.categories, name) then
      s.(categories := s.categories[k := s.categories[k].(name := name)])
    else s
  }

  /**
   * A rename changes only the name of category `k`, and does so exactly
   * when `k` is in range and the dialog was accepted with a non-empty name
   * no category has (the category's own name included, so the source's
   * "unchanged name" test adds nothing); the names stay distinct.
   */
  lemma RenameCategoryRule(s: Store, k: int, name: string, ok: bool)
    ensures var s' := Renamed(s, k, name, ok);
            && s'.(categories := s.categories) == s
            && |s'.categories| == |s.categories|
            && (forall i :: 0 <= i < |s.categories| && i != k ==> s'.categories[i] == s.categories[i])
            && (forall i :: 0 <= i < |s.categories| ==> s'.categories[i].createdAt == s.categories[i].createdAt)
            && (s' != s <==> 0 <= k < |s.categories| && ok && name != [] && !NameTaken(s.categories, name))
            && (s' != s ==> s'.categories[k].name == name)
            && (UniqueNames(s.categories) ==> UniqueNames(s'.categories))
            && (Valid(s) ==> Valid(s'))
  {
    if 0 <= k < |s.categories| && name == s.categories[k].name {
      assert NameTaken(s.categories, name);
    }
  }

  // ---------------------------------------------------------------------
  // Deleting a category

  /** The reference of an archive once category `k` is gone: cleared if it was `k`, moved down if above. */
  function ShiftRef(r: Option<nat>, k: nat): Option<nat>
  {
    if r == Some(k) then None
    else if r.Some? && r.value > k then Some(r.value - 1)
    else r
  }

  /** The archive list after the renumbering loop of `delete_category(k)`. */
  function Relinked(archives: seq<Archive>, k: nat): seq<Archive>
  {
    seq(|archives|, j requires 0 <= j < |archives| => archives[j].(categoryIndex := ShiftRef(archives[j].categoryIndex, k)))
  }

  /** `current_category_index` after `delete_category(k)`. */
  function ShiftedCurrent(cur: int, k: nat): int
  {
    if k == cur then -1 else if cur > k then cur - 1 else cur
  }

  /** `delete_category(k)` after the confirmation dialog answered `confirmed`. */
  function CategoryDeleted(s: Store, k: int, confirmed: bool): Store
  {
    if k < 0 || k >= |s.categories| || !confirmed then s
    else Store(RemoveAt(s.categories, k), Relinked(s.archives, k), s.currentArchive, ShiftedCurrent(s.currentCategory, k))
  }

  /**
   * Where the tree shows an archive: under the root, under a category
   * (named by its whole record), or nowhere, when its index is out of
   * range (`refresh_categories_tree` lists archive j under category i iff
   * its index is i, and under the root iff it has none).
   */
  datatype Shelf = Root | Under(category: Category) | Nowhere

  function ShelfOf(cats: seq<Category>, a: Archive): Shelf
  {
    match a.categoryIndex
    case None => Root
    case Some(i) => if i < |cats| then Under(cats[i]) else Nowhere
  }

  /**
   * The renumbering keeps every archive on the same shelf: one filed under
   * the deleted category moves to the root, every other one stays under
   * the very category (same name, same stamp) it was under before, or
   * under the root, or nowhere. Nothing but the reference changes.
   */
  lemma DeleteCategoryKeepsFiling(cats: seq<Category>, archives: seq<Archive>, k: nat)
    requires k < |cats|
    ensures var cats', archives' := RemoveAt(cats, k), Relinked(archives, k);
            && |archives'| == |archives|
            && forall j :: 0 <= j < |archives| ==>
                 && archives'[j].(categoryIndex := archives[j].categoryIndex) == archives[j]
                 && ShelfOf(cats', archives'[j]) == (if archives[j].categoryIndex == Some(k) then Root else ShelfOf(cats, archives[j]))
  {
    RemoveAtElements(cats, k);
  }

  /** References in range before are in range of the shorter list after. */
  lemma DeleteCategoryKeepsRefsInRange(cats: seq<Category>, archives: seq<Archive>, k: nat)
    requires k < |cats| && RefsInRange(archives, |cats|)
    ensures RefsInRange(Relinked(archives, k), |cats| - 1)
  {
  }

  /**
   * The current category is cleared when it is the deleted one and
   * otherwise still designates the same category; it stays in range.
   */
  lemma DeleteCategoryKeepsCurrent(cats: seq<Category>, cur: int, k: nat)
    requires k < |cats| && -1 <= cur < |cats|
    ensures -1 <= ShiftedCurrent(cur, k) < |cats| - 1
    ensures cur == k ==> ShiftedCurrent(cur, k) == -1
    ensures 0 <= cur && cur != k ==> ShiftedCurrent(cur, k) >= 0 && RemoveAt(cats, k)[ShiftedCurrent(cur, k)] == cats[cur]
  {
    RemoveAtElements(cats, k);
  }

  /**
   * A confirmed deletion of a category in range removes exactly that
   * category and keeps the catalog well kept; anything else changes nothing.
   */
  lemma DeleteCategoryRule(s: Store, k: int, confirmed: bool)
    ensures var s' := CategoryDeleted(s, k, confirmed);
            && (0 <= k < |s.categories| && confirmed ==>
                  && multiset(s'.categories) + multiset{s.categories[k]} == multiset(s.categories)
                  && s'.currentArchive == s.currentArchive)
            && (!(0 <= k < |s.categories| && confirmed) ==> s' == s)
            && (Valid(s) ==> Valid(s'))
  {
    if 0 <= k < |s.categories| && confirmed {
      RemoveAtElements(s.categories, k);
      if Valid(s) {
        RemoveAtKeepsUnique(s.categories, k);
        DeleteCategoryKeepsRefsInRange(s.categories, s.archives, k);
        DeleteCategoryKeepsCurrent(s.categories, s.currentCategory, k);
      }
    }
  }

  // ---------------------------------------------------------------------
  // Moving an archive

  /** `move_archive_to_category(j, target)`; None moves it to the root. */
  function Moved(s: Store, j: int, target: Option<int>): Store
  {
    if j < 0 || j >= |s.archives| then s
    else if target.Some? && (target.value < 0 || target.value >= |s.categories|) then s
    else s.(archives := s.archives[j := s.archives[j].(categoryIndex := if target.Some? then Some(target.value as nat) else None)])
  }

  /**
   * A move with both indices in range puts archive `j` on the target's
   * shelf and changes nothing else; a move with either out of range
   * changes nothing.
   */
  lemma MoveRule(s: Store, j: int, target: Option<int>)
    ensures var s' := Moved(s, j, target);
            && s'.(archives := s.archives) == s
            && |s'.archives| == |s.archives|
            && (forall i :: 0 <= i < |s.archives| && i != j ==> s'.archives[i] == s.archives[i])
            && (0 <= j < |s.archives| && (target.Some? ==> 0 <= target.value < |s.categories|) ==>
                  && s'.archives[j].(categoryIndex := s.archives[j].categoryIndex) == s.archives[j]
                  && ShelfOf(s.categories, s'.archives[j]) == (if target.Some? then Under(s.categories[target.value]) else Root))
            && (!(0 <= j < |s.archives| && (target.Some? ==> 0 <= target.value < |s.categories|)) ==> s' == s)
            && (Valid(s) ==> Valid(s'))
  {
  }

  // ---------------------------------------------------------------------
  // Adding archives

  /** The category of a new archive: the current one if any. */
  function NewCategoryRef(cur: int): Option<nat>
  {
    if cur >= 0 then Some(cur as nat) else None
  }

  /** `sessions[0]['path'].replace('\\' + sessions[0]['name'], '')`, or `''` without sessions. */
  function ExtractedPathOf(sessions: seq<Session>): string
  {
    if sessions == [] then "" else RemoveAll(sessions[0].path, [Sep] + sessions[0].name)
  }

  /** The list grows by `a` at the end, which becomes the current archive. */
  function Appended(s: Store, a: Archive): Store
  {
    s.(archives := s.archives + [a], currentArchive := |s.archives|)
  }

  /** The record `extraction_finished` appends. */
  function FinishedArchive(s: Store, sessions: seq<Session>, name: string, path: string): Archive
  {
    Archive(name, path, ExtractedPathOf(sessions), sessions, NewCategoryRef(s.currentCategory), false, false)
  }

  /** What the window does with the worker's terminal signal: a finished run is recorded, an error only shown. */
  function Committed(s: Store, e: Event): Store
  {
    if e.Finished? then Appended(s, FinishedArchive(s, e.sessions, e.name, e.path)) else s
  }

  /** The extraction directory of `process_archive` and `process_folder`: `extracted_<name>` beside the input. */
  function TempDirFor(path: string): string
  {
    Join(Dirname(path), ExtractedPrefix + Basename(path))
  }

  /**
   * `process_archive(path)` followed by the worker's run: refused when the
   * archive cannot be read, when an archive from the same path exists or
   * when the extraction directory cannot be created (`makeDir`); the old
   * directory's removal only warns.
   */
  function IngestArchive(s: Store, path: string, node: Option<Node>, env: Env): Store
  {
    if !(node.Some? && node.value.readable) then s
    else if PathTaken(s.archives, path) then s
    else if !env.makeDir(TempDirFor(path)) then s
    else Committed(s, Plan(env, path, node, true, TempDirFor(path)).terminal)
  }

  /** `process_folder(path)` followed by the worker's run. */
  function IngestFolder(s: Store, path: string, node: Option<Node>, env: Env): Store
  {
    if PathTaken(s.archives, path) then s
    else if !env.makeDir(TempDirFor(path)) then s
    else Committed(s, Plan(env, path, node, false, TempDirFor(path)).terminal)
  }

  /** The record `process_single_session(path)` appends: one session, the folder itself. */
  function SingleSessionArchive(s: Store, path: string): Archive
  {
    var name := Basename(path);
    Archive(SingleSessionPrefix + name, path, path, [Session(name, path)], NewCategoryRef(s.currentCategory), true, false)
  }

  /** `process_single_session(path)`: refused when some session already lives at `path`. */
  function IngestSingleSession(s: Store, path: string): Store
  {
    if SessionPathTaken(s.archives, path) then s else Appended(s, SingleSessionArchive(s, path))
  }

  /** The extraction directory of `process_single_session_archive`: `extracted_single_<stem>` beside the archive. */
  function SingleTempDirFor(path: string): string
  {
    Join(Dirname(path), ExtractedSinglePrefix + Stem(Basename(path)))
  }

  /** The first directory of the walk that is itself a profile. */
  function FirstProfileRoot(steps: seq<WalkStep>): Option<string>
  {
    if steps == [] then None
    else if Analyze(steps[0].root, Some(steps[0].node)).isChromeProfile then Some(steps[0].root)
    else FirstProfileRoot(steps[1..])
  }

  /** The walk finds no profile exactly when no step is one, and otherwise the first step that is. */
  lemma {:induction false} FirstProfileRootMeans(steps: seq<WalkStep>)
    ensures var r := FirstProfileRoot(steps);
            && (r.None? <==> forall k :: 0 <= k < |steps| ==> !Analyze(steps[k].root, Some(steps[k].node)).isChromeProfile)
            && (r.Some? ==> exists k :: 0 <= k < |steps| && steps[k].root == r.value
                              && Analyze(steps[k].root, Some(steps[k].node)).isChromeProfile
                              && forall l :: 0 <= l < k ==> !Analyze(steps[l].root, Some(steps[l].node)).isChromeProfile)
  {
    if steps != [] {
      FirstProfileRootMeans(steps[1..]);
      assert forall k :: 1 <= k < |steps| ==> steps[k] == steps[1..][k - 1];
      if !Analyze(steps[0].root, Some(steps[0].node)).isChromeProfile && FirstProfileRoot(steps[1..]).Some? {
        var k :| 0 <= k < |steps[1..]| && steps[1..][k].root == FirstProfileRoot(steps[1..]).value
                 && Analyze(steps[1..][k].root, Some(steps[1..][k].node)).isChromeProfile
                 && forall l :: 0 <= l < k ==> !Analyze(steps[1..][l].root, Some(steps[1..][l].node)).isChromeProfile;
        assert forall l :: 0 <= l < k + 1 ==> !Analyze(steps[l].root, Some(steps[l].node)).isChromeProfile;
      }
    }
  }

  /** The session record of a single-session archive: its stem, at the profile found or else at the extraction directory. */
  function UnpackedSessionArchive(s: Store, path: string, found: Option<string>): Archive
  {
    var stem := Stem(Basename(path));
    var t := SingleTempDirFor(path);
    Archive(SessionArchivePrefix + stem, path, t, [Session(stem, if found.Some? then found.value else t)],
            NewCategoryRef(s.currentCategory), true, true)
  }

  /**
   * The record `process_single_session_archive(path)` appends, or None: refused for a known archive
   * path; the extraction directory is created (`makeDir`), the archive is
   * checked and extracted into it, and the first walk step that is a
   * profile becomes the session; without one, the user is asked whether to
   * go on (`proceed`).
   */
  function SessionArchiveFor(s: Store, path: string, archive: Option<ArchiveFile>, env: Env, proceed: bool): Option<Archive>
  {
    if PathTaken(s.archives, path) || !env.makeDir(SingleTempDirFor(path)) then None
    else ExtractedSessionArchive(s, path, Outcome(archive, env.toolFound, env.runs(path)), proceed)
  }

  /** What follows the extraction: nothing on an error, else the walk's first profile, or the user's answer. */
  function ExtractedSessionArchive(s: Store, path: string, r: Result<Node, ExtractError>, proceed: bool): Option<Archive>
  {
    if r.Err? then None
    else
      var found := FirstProfileRoot(Walk(SingleTempDirFor(path), r.value));
      if found.None? && !proceed then None else Some(UnpackedSessionArchive(s, path, found))
  }

  /** `process_single_session_archive(path)`: the record decided by `SessionArchiveFor`, if any, is appended. */
  function IngestSessionArchive(s: Store, path: string, archive: Option<ArchiveFile>, env: Env, proceed: bool): Store
  {
    var a := SessionArchiveFor(s, path, archive, env, proceed);
    if a.None? then s else Appended(s, a.value)
  }

  /** Appending keeps every earlier record in place and adds exactly `a` after them. */
  lemma AppendedShape(s: Store, a: Archive)
    ensures var s' := Appended(s, a);
            && s' != s
            && |s'.archives| == |s.archives| + 1
            && s'.archives[..|s.archives|] == s.archives
            && s'.archives[|s.archives|] == a
            && s'.categories == s.categories
  {
    assert |Appended(s, a).archives| == |s.archives| + 1;
  }

  /** An appended archive filed under the current category keeps the catalog well kept. */
  lemma AppendKeepsValid(s: Store, a: Archive)
    requires Valid(s) && a.categoryIndex == NewCategoryRef(s.currentCategory)
    ensures Valid(Appended(s, a))
  {
  }

  /** A finished run reports the input's base name and path, and some session. */
  lemma FinishedNamesSource(env: Env, source: string, node: Option<Node>, isArchive: bool, tempDir: string)
    ensures var e := Plan(env, source, node, isArchive, tempDir).terminal;
            e.Finished? ==> e.name == Basename(source) && e.path == source && e.sessions != []
  {
    PlanGood(env, source, node, isArchive, tempDir);
    var o := Open(env, source, node, isArchive, tempDir);
    if o.outcome.Ok? {
      var src := o.outcome.value;
      var steps := Walk(src.dir, src.root);
      if !Analyze(src.dir, Some(src.root)).isChromeProfile && Candidates(steps) != [] {
        var st := Nested(env, tempDir, Candidates(steps));
        assert Search(env, source, src.dir, steps, tempDir) == Finish(st, Basename(source), source);
      }
    }
  }

  /**
   * The worker's terminal signal adds an archive exactly when the run
   * finished: one new record at the end, from the input's path and with
   * the worker's (non-empty) sessions, filed under the current category
   * and made current; the catalog stays well kept.
   */
  lemma CommitRule(s: Store, env: Env, source: string, node: Option<Node>, isArchive: bool, tempDir: string)
    ensures var e := Plan(env, source, node, isArchive, tempDir).terminal;
            var s' := Committed(s, e);
            && (s' != s <==> e.Finished?)
            && (e.Finished? ==>
                  && s'.archives[..|s.archives|] == s.archives
                  && s'.archives[|s.archives|] == FinishedArchive(s, e.sessions, Basename(source), source)
                  && s'.archives[|s.archives|].sessions != [])
            && s'.categories == s.categories
            && (Valid(s) ==> Valid(s'))
  {
    FinishedNamesSource(env, source, node, isArchive, tempDir);
    var e := Plan(env, source, node, isArchive, tempDir).terminal;
    if e.Finished? {
      assert |Committed(s, e).archives| == |s.archives| + 1;
    }
  }

  /**
   * An archive whose path is already in the catalog, or that cannot be
   * read, is not added again; otherwise it is added exactly when the
   * extraction directory is created and the worker finishes.
   */
  lemma IngestArchiveRule(s: Store, path: string, node: Option<Node>, env: Env)
    ensures var s' := IngestArchive(s, path, node, env);
            && (PathTaken(s.archives, path) ==> s' == s)
            && (!(node.Some? && node.value.readable) ==> s' == s)
            && (s' != s <==> node.Some? && node.value.readable && !PathTaken(s.archives, path)
                             && env.makeDir(TempDirFor(path)) && Plan(env, path, node, true, TempDirFor(path)).terminal.Finished?)
            && (Valid(s) ==> Valid(s'))
  {
    CommitRule(s, env, path, node, true, TempDirFor(path));
  }

  /** The same for a folder: a folder whose path is already in the catalog is not added again. */
  lemma IngestFolderRule(s: Store, path: string, node: Option<Node>, env: Env)
    ensures var s' := IngestFolder(s, path, node, env);
            && (PathTaken(s.archives, path) ==> s' == s)
            && (s' != s <==> !PathTaken(s.archives, path) && env.makeDir(TempDirFor(path))
                             && Plan(env, path, node, false, TempDirFor(path)).terminal.Finished?)
            && (Valid(s) ==> Valid(s'))
  {
    CommitRule(s, env, path, node, false, TempDirFor(path));
  }

  /**
   * A folder already recorded as some session is refused; any other is
   * added as an archive with exactly that one session, whose path is both
   * the archive's path and its extraction directory.
   */
  lemma IngestSingleSessionRule(s: Store, path: string)
    ensures var s' := IngestSingleSession(s, path);
            && (SessionPathTaken(s.archives, path) ==> s' == s)
            && (!SessionPathTaken(s.archives, path) ==>
                  && s'.archives[..|s.archives|] == s.archives
                  && |s'.archives| == |s.archives| + 1
                  && s'.archives[|s.archives|].sessions == [Session(Basename(path), path)]
                  && s'.archives[|s.archives|].path == path
                  && s'.archives[|s.archives|].extractedPath == path
                  && SessionPathTaken(s'.archives, path))
            && (Valid(s) ==> Valid(s'))
  {
    if !SessionPathTaken(s.archives, path) {
      var a := SingleSessionArchive(s, path);
      AppendedShape(s, a);
      if Valid(s) {
        AppendKeepsValid(s, a);
      }
      assert Appended(s, a).archives[|s.archives|].sessions[0].path == path;
    }
  }

  /**
   * The session-path guard does not stop a second archive with the same
   * path: a folder added whole (its sessions below it) can be added again
   * as a single session.
   */
  lemma SessionPathDoesNotGuardArchivePath(p: string, cats: seq<Category>)
    ensures var folder := Archive(Basename(p), p, p, [Session("a", p + "\\a")], None, false, false);
            var s' := IngestSingleSession(Store(cats, [folder], -1, -1), p);
            |s'.archives| == 2 && s'.archives[0].path == p && s'.archives[1].path == p
  {
    var folder := Archive(Basename(p), p, p, [Session("a", p + "\\a")], None, false, false);
    assert |folder.sessions[0].path| > |p|;
    assert !SessionPathTaken([folder], p);
  }

  /**
   * A single-session archive already in the catalog is refused; otherwise
   * one archive is added exactly when its directory is created, the
   * extraction succeeds and a profile is found or the user goes on. It
   * has one session named after the archive's stem, at the first profile
   * found or else at the extraction directory.
   */
  lemma IngestSessionArchiveRule(s: Store, path: string, archive: Option<ArchiveFile>, env: Env, proceed: bool)
    ensures var s' := IngestSessionArchive(s, path, archive, env, proceed);
            var t := SingleTempDirFor(path);
            var r := Outcome(archive, env.toolFound, env.runs(path));
            && (PathTaken(s.archives, path) ==> s' == s)
            && (s' != s <==> !PathTaken(s.archives, path) && env.makeDir(t) && r.Ok?
                             && (FirstProfileRoot(Walk(t, r.value)).Some? || proceed))
            && (s' != s ==>
                  && s'.archives[..|s.archives|] == s.archives
                  && |s'.archives| == |s.archives| + 1
                  && |s'.archives[|s.archives|].sessions| == 1
                  && s'.archives[|s.archives|].sessions[0].name == Stem(Basename(path))
                  && s'.archives[|s.archives|].extractedPath == t
                  && s'.archives[|s.archives|].sessions[0].path
                     == (if FirstProfileRoot(Walk(t, r.value)).Some? then FirstProfileRoot(Walk(t, r.value)).value else t))
            && (Valid(s) ==> Valid(s'))
  {
    var a := SessionArchiveFor(s, path, archive, env, proceed);
    if a.Some? {
      AppendedShape(s, a.value);
      if Valid(s) {
        AppendKeepsValid(s, a.value);
      }
    }
  }

  /** An extracted directory that is itself a profile is the session. */
  lemma ProfileAtTop(t: string, out: Node)
    requires Listable(out) && Analyze(t, Some(out)).isChromeProfile
    ensures FirstProfileRoot(Walk(t, out)) == Some(t)
  {
  }

  /**
   * The extraction directory recorded by `extraction_finished` for a
   * first session `prefix\name`: removing `\name` leaves `prefix`,
   * provided `\name` does not occur in `prefix` as well.
   */
  lemma ExtractedPathOfSession(prefix: string, name: string, rest: seq<Session>)
    requires NoSep(name) && !Contains(prefix, [Sep] + name)
    ensures ExtractedPathOf([Session(name, prefix + [Sep] + name)] + rest) == prefix
  {
    RemoveTrailingSegment(prefix, name);
  }

  /**
   * For a session unpacked from a nested archive this is the worker's
   * extraction directory, which has a name of its own (`extracted_…`).
   */
  lemma NestedExtractedPath(tempDir: string, c: Candidate, rest: seq<Session>)
    requires Basename(tempDir) != []
    requires !Contains(tempDir, [Sep] + SessionName(c))
    ensures ExtractedPathOf([Session(SessionName(c), SessionDir(tempDir, c))] + rest) == tempDir
  {
    var name := SessionName(c);
    StemKeepsNoSep(Basename(c.path));
    NamedDirJoin(tempDir, name);
    ExtractedPathOfSession(tempDir, name, rest);
  }

  /** A directory with a name of its own is joined with a separator. */
  lemma NamedDirJoin(dir: string, name: string)
    requires Basename(dir) != []
    ensures Join(dir, name) == dir + [Sep] + name
  {
    assert |dir| > DriveLen(dir) && !IsSep(dir[|dir| - 1]);
  }

  /**
   * For a working root `parent\name` that is itself a profile, the one
   * session is the root, so the recorded extraction directory is the
   * root's parent: the directory that deleting the archive removes.
   */
  lemma RootProfileExtractedPath(parent: string, name: string)
    requires parent != [] && NoSep(name)
    requires !Contains(parent, [Sep] + name)
    ensures var root := parent + [Sep] + name;
            Basename(root) == name && ExtractedPathOf([Session(Basename(root), root)]) == parent
  {
    var root := parent + [Sep] + name;
    assert root == (parent + [Sep]) + name;
    BasenameAppend(parent + [Sep], name);
    ExtractedPathOfSession(parent, name, []);
  }

  lemma StemKeepsNoSep(b: string)
    requires NoSep(b)
    ensures NoSep(Stem(b))
  {
    var st := Stem(b);
    assert forall i :: 0 <= i < |st| ==> st[i] == b[i];
  }

  // ---------------------------------------------------------------------
  // Deleting an archive

  /**
   * `delete_selected_archive` after the confirmation dialog answered
   * `confirmed`; `removeDir(p)` says whether the directory at `p` is gone
   * without an exception (true when nothing exists there). An index
   * beyond the list raises `IndexError` before the dialog and changes
   * nothing.
   */
  function ArchiveDeleted(s: Store, confirmed: bool, removeDir: string -> bool): Store
  {
    var c := s.currentArchive;
    if c < 0 || c >= |s.archives| || !confirmed then s
    else if !removeDir(s.archives[c].extractedPath) then s
    else s.(archives := RemoveAt(s.archives, c), currentArchive := -1)
  }

  /**
   * An archive is removed exactly when one is current, the user confirms
   * and its directory is removed first; it is the current one, the others
   * keep their order, the selection is cleared and the categories are
   * untouched.
   */
  lemma DeleteArchiveRule(s: Store, confirmed: bool, removeDir: string -> bool)
    ensures var s' := ArchiveDeleted(s, confirmed, removeDir);
            var c := s.currentArchive;
            && s'.categories == s.categories && s'.currentCategory == s.currentCategory
            && (s' != s <==> 0 <= c < |s.archives| && confirmed && removeDir(s.archives[c].extractedPath))
            && (s' != s ==>
                  && s'.currentArchive == -1
                  && |s'.archives| == |s.archives| - 1
                  && (forall j :: 0 <= j < |s'.archives| ==> s'.archives[j] == s.archives[if j < c then j else j + 1])
                  && multiset(s'.archives) + multiset{s.archives[c]} == multiset(s.archives))
            && (Valid(s) ==> Valid(s'))
  {
    var c := s.currentArchive;
    if 0 <= c < |s.archives| && confirmed && removeDir(s.archives[c].extractedPath) {
      RemoveAtElements(s.archives, c);
    }
  }

  // ---------------------------------------------------------------------
  // Deleting sessions

  /** One pass of the loop of `delete_selected_sessions`: the first session called `name` goes, if its directory does. */
  function RemoveFirstNamed(ss: seq<Session>, name: string, removeDir: string -> bool): seq<Session>
  {
    var k := FirstNamed(ss, name);
    if k < 0 || !removeDir(ss[k].path) then ss else RemoveAt(ss, k)
  }

  /** The sessions left after the loop over the selected names, in selection order. */
  function DeleteByNames(ss: seq<Session>, names: seq<string>, removeDir: string -> bool): seq<Session>
    decreases |names|
  {
    if names == [] then ss
    else RemoveFirstNamed(DeleteByNames(ss, names[..|names| - 1], removeDir), names[|names| - 1], removeDir)
  }

  /**
   * One pass removes at most one session, one called `name` whose
   * directory was removed: a session whose removal fails stays.
   */
  lemma RemoveFirstNamedRule(ss: seq<Session>, name: string, removeDir: string -> bool)
    ensures var r := RemoveFirstNamed(ss, name, removeDir);
            && multiset(r) <= multiset(ss)
            && |ss| - 1 <= |r| <= |ss|
            && (forall x: Session :: x.name != name ==> multiset(r)[x] == multiset(ss)[x])
            && (forall x: Session :: !removeDir(x.path) ==> multiset(r)[x] == multiset(ss)[x])
  {
    var k := FirstNamed(ss, name);
    if k >= 0 && removeDir(ss[k].path) {
      RemoveAtElements(ss, k);
    }
  }

  /**
   * What one pass removes: the list changes exactly when a session has the
   * name and the directory of the first such session is removed; then
   * that session goes and the others keep their order.
   */
  lemma RemoveFirstNamedEffect(ss: seq<Session>, name: string, removeDir: string -> bool)
    ensures var r := RemoveFirstNamed(ss, name, removeDir);
            var k := FirstNamed(ss, name);
            && (r != ss <==> k >= 0 && removeDir(ss[k].path))
            && (k >= 0 && removeDir(ss[k].path) ==>
                  && (forall j :: 0 <= j < |r| ==> r[j] == ss[if j < k then j else j + 1])
                  && multiset(r) + multiset{ss[k]} == multiset(ss))
  {
    var k := FirstNamed(ss, name);
    if k >= 0 && removeDir(ss[k].path) {
      RemoveAtElements(ss, k);
      assert |RemoveAt(ss, k)| != |ss|;
    }
  }

  /**
   * The loop only takes sessions away, at most one per selected name,
   * never one whose name was not selected, and never one whose directory
   * could not be removed, whatever the other removals do. It does take
   * one away for every selected name whose first session's directory can
   * be removed: that session.
   */
  lemma DeleteByNamesRemovesOnlySelected(ss: seq<Session>, names: seq<string>, removeDir: string -> bool)
    ensures var r := DeleteByNames(ss, names, removeDir);
            && multiset(r) <= multiset(ss)
            && |ss| - |names| <= |r| <= |ss|
            && (forall x :: x in ss && x.name !in names ==> multiset(r)[x] == multiset(ss)[x])
            && (forall x :: x in ss && !removeDir(x.path) ==> multiset(r)[x] == multiset(ss)[x])
            && (forall n :: n in names && FirstNamed(ss, n) >= 0 && removeDir(ss[FirstNamed(ss, n)].path) ==>
                  multiset(r)[ss[FirstNamed(ss, n)]] < multiset(ss)[ss[FirstNamed(ss, n)]])
  {
    DeleteByNamesBounds(ss, names, removeDir);
    forall n | n in names && FirstNamed(ss, n) >= 0 && removeDir(ss[FirstNamed(ss, n)].path)
      ensures multiset(DeleteByNames(ss, names, removeDir))[ss[FirstNamed(ss, n)]] < multiset(ss)[ss[FirstNamed(ss, n)]]
    {
      DeleteByNamesRemovesFirst(ss, names, n, removeDir);
    }
  }

  /** What the loop can take away: the upper bounds, by induction on the names. */
  lemma {:induction false} DeleteByNamesBounds(ss: seq<Session>, names: seq<string>, removeDir: string -> bool)
    ensures var r := DeleteByNames(ss, names, removeDir);
            && multiset(r) <= multiset(ss)
            && |ss| - |names| <= |r| <= |ss|
            && (forall x :: x in ss && x.name !in names ==> multiset(r)[x] == multiset(ss)[x])
            && (forall x :: x in ss && !removeDir(x.path) ==> multiset(r)[x] == multiset(ss)[x])
    decreases |names|
  {
    if names != [] {
      var init, last := names[..|names| - 1], names[|names| - 1];
      DeleteByNamesBounds(ss, init, removeDir);
      RemoveFirstNamedRule(DeleteByNames(ss, init, removeDir), last, removeDir);
      assert forall x: Session :: x.name !in names ==> x.name !in init && x.name != last;
    }
  }

  /** A selected name whose first session's directory can be removed loses that session. */
  lemma {:induction false} DeleteByNamesRemovesFirst(ss: seq<Session>, names: seq<string>, n: string, removeDir: string -> bool)
    requires n in names && FirstNamed(ss, n) >= 0 && removeDir(ss[FirstNamed(ss, n)].path)
    ensures var x := ss[FirstNamed(ss, n)];
            multiset(DeleteByNames(ss, names, removeDir))[x] < multiset(ss)[x]
    decreases |names|
  {
    var init, last := names[..|names| - 1], names[|names| - 1];
    var t := DeleteByNames(ss, init, removeDir);
    var x := ss[FirstNamed(ss, n)];
    assert DeleteByNames(ss, names, removeDir) == RemoveFirstNamed(t, last, removeDir);
    RemoveFirstNamedRule(t, last, removeDir);
    RemoveFirstNamedEffect(t, last, removeDir);
    if n in init {
      DeleteByNamesRemovesFirst(ss, init, n, removeDir);
    } else {
      assert n == last;
      DeleteByNamesKeepsFirstNamed(ss, init, n, removeDir);
      DeleteByNamesBounds(ss, init, removeDir);
      assert t[FirstNamed(t, n)] == x;
    }
  }

  /** Passes for other names keep the first session called `n` the first one. */
  lemma {:induction false} DeleteByNamesKeepsFirstNamed(ss: seq<Session>, names: seq<string>, n: string, removeDir: string -> bool)
    requires n !in names && FirstNamed(ss, n) >= 0
    ensures var r := DeleteByNames(ss, names, removeDir);
            FirstNamed(r, n) >= 0 && r[FirstNamed(r, n)] == ss[FirstNamed(ss, n)]
    decreases |names|
  {
    if names != [] {
      var init, last := names[..|names| - 1], names[|names| - 1];
      assert last in names;
      DeleteByNamesKeepsFirstNamed(ss, init, n, removeDir);
      PassKeepsFirstNamed(DeleteByNames(ss, init, removeDir), last, n, removeDir);
    }
  }

  /** A pass for another name keeps the first session called `n` the first one. */
  lemma PassKeepsFirstNamed(t: seq<Session>, m: string, n: string, removeDir: string -> bool)
    requires m != n && FirstNamed(t, n) >= 0
    ensures var r := RemoveFirstNamed(t, m, removeDir);
            FirstNamed(r, n) >= 0 && r[FirstNamed(r, n)] == t[FirstNamed(t, n)]
  {
    var k := FirstNamed(t, m);
    if k >= 0 && removeDir(t[k].path) {
      RemoveAtKeepsFirstNamed(t, k, n);
    }
  }

  /** Removing a session with another name keeps the first session called `n` the first one. */
  lemma RemoveAtKeepsFirstNamed(t: seq<Session>, k: nat, n: string)
    requires k < |t| && t[k].name != n && FirstNamed(t, n) >= 0
    ensures var r := RemoveAt(t, k);
            FirstNamed(r, n) >= 0 && r[FirstNamed(r, n)] == t[FirstNamed(t, n)]
  {
    var a := FirstNamed(t, n);
    var r := RemoveAt(t, k);
    RemoveAtElements(t, k);
    var b := if k < a then a - 1 else a;
    assert r[b] == t[a];
    forall j | 0 <= j < b
      ensures r[j].name != n
    {
      assert r[j] == t[if j < k then j else j + 1];
    }
    var c := FirstNamed(r, n);
    assert c == b;
  }

  /** When no directory can be removed, no session is removed and the order is kept. */
  lemma {:induction false} FailedRemovalsKeepSessions(ss: seq<Session>, names: seq<string>, removeDir: string -> bool)
    requires forall p :: !removeDir(p)
    ensures DeleteByNames(ss, names, removeDir) == ss
    decreases |names|
  {
    if names != [] {
      FailedRemovalsKeepSessions(ss, names[..|names| - 1], removeDir);
    }
  }

  /** Of two sessions with the same name, selecting the name once removes the first only. */
  lemma FirstOfSameNameOnly(a: string, b: string)
    ensures DeleteByNames([Session("s", a), Session("s", b)], ["s"], p => true) == [Session("s", b)]
  {
    var ss := [Session("s", a), Session("s", b)];
    assert FirstNamed(ss, "s") == 0;
    assert DeleteByNames(ss, ["s"], p => true) == RemoveFirstNamed(ss, "s", p => true);
  }

  /**
   * `delete_selected_sessions` with the names of the selected list items,
   * after the confirmation dialog answered `confirmed`. Nothing happens
   * without a current archive or without a selection; an index beyond the
   * list raises `IndexError` and changes nothing.
   */
  function SessionsDeleted(s: Store, names: seq<string>, confirmed: bool, removeDir: string -> bool): Store
  {
    var c := s.currentArchive;
    if c < 0 || names == [] || !confirmed || c >= |s.archives| then s
    else s.(archives := s.archives[c := s.archives[c].(sessions := DeleteByNames(s.archives[c].sessions, names, removeDir))])
  }

  /**
   * Only the sessions of the current archive change; the archive itself
   * stays in the list even when no session is left, and the catalog
   * stays well kept.
   */
  lemma SessionsDeletedRule(s: Store, names: seq<string>, confirmed: bool, removeDir: string -> bool)
    ensures var s' := SessionsDeleted(s, names, confirmed, removeDir);
            && s'.(archives := s.archives) == s
            && |s'.archives| == |s.archives|
            && (forall j :: 0 <= j < |s.archives| ==> s'.archives[j].(sessions := s.archives[j].sessions) == s.archives[j])
            && (forall j :: 0 <= j < |s.archives| && j != s.currentArchive ==> s'.archives[j] == s.archives[j])
            && (Valid(s) ==> Valid(s'))
  {
  }

  // ---------------------------------------------------------------------
  // The tree

  /** The positions of the archives whose reference is `ref`, among the first `n`, in list order. */
  function Members(archives: seq<Archive>, ref: Option<nat>, n: nat): (r: seq<nat>)
    requires n <= |archives|
    ensures forall j: nat :: j in r <==> j < n && archives[j].categoryIndex == ref
    ensures forall x, y :: 0 <= x < y < |r| ==> r[x] < r[y]
    ensures forall x :: 0 <= x < |r| ==> r[x] < n
  {
    if n == 0 then []
    else Members(archives, ref, n - 1) + (if archives[n - 1].categoryIndex == ref then [n - 1] else [])
  }

  /** The tree `refresh_categories_tree` builds: the archives under the root and under each category. */
  datatype Tree = Tree(root: seq<nat>, groups: seq<seq<nat>>)

  function TreeOf(cats: seq<Category>, archives: seq<Archive>): Tree
  {
    Tree(Members(archives, None, |archives|), seq(|cats|, i requires 0 <= i < |cats| => Members(archives, Some(i), |archives|)))
  }

  /**
   * Every archive with its reference in range is listed exactly once,
   * under the root or under its one category; one with an index out of
   * range is listed nowhere.
   */
  lemma TreeListing(cats: seq<Category>, archives: seq<Archive>, j: nat)
    requires j < |archives|
    ensures var t := TreeOf(cats, archives);
            && (j in t.root <==> archives[j].categoryIndex.None?)
            && (forall i :: 0 <= i < |cats| ==> (j in t.groups[i] <==> archives[j].categoryIndex == Some(i)))
            && (ShelfOf(cats, archives[j]) == Nowhere ==> j !in t.root && forall i :: 0 <= i < |cats| ==> j !in t.groups[i])
  {
  }
}
