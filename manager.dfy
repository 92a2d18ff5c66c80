/**
 * The session manager window as the object the program keeps: the
 * category list, the archive list and the two current indices are fields
 * that its methods update in place. Each method is proved to perform the
 * catalog operation of module `Catalog` it is named after, and to keep the
 * catalog well kept; dialog answers, typed names and the results of
 * directory removal and creation are parameters.
 */
module Manager {
  import opened Wrappers
  import opened Paths
  import opened FileSystem
  import opened Profile
  import opened ArchiveTool
  import opened Discovery
  import opened Catalog

  /** The `any(...)` over the category names, as the loop it is. */
  method FindCategoryName(cats: seq<Category>, name: string) returns (taken: bool)
    ensures taken <==> NameTaken(cats, name)
  {
    var i := 0;
    while i < |cats|
      invariant 0 <= i <= |cats|
      invariant forall l :: 0 <= l < i ==> cats[l].name != name
    {
      if cats[i].name == name {
        return true;
      }
      i := i + 1;
    }
    return false;
  }

  /** The duplicate check of `process_archive`, `process_folder` and `process_single_session_archive`. */
  method FindArchivePath(archives: seq<Archive>, path: string) returns (taken: bool)
    ensures taken <==> PathTaken(archives, path)
  {
    var j := 0;
    while j < |archives|
      invariant 0 <= j <= |archives|
      invariant forall l :: 0 <= l < j ==> archives[l].path != path
    {
      if archives[j].path == path {
        return true;
      }
      j := j + 1;
    }
    return false;
  }

  /** The duplicate check of `process_single_session`: every session of every archive. */
  method FindSessionPath(archives: seq<Archive>, path: string) returns (taken: bool)
    ensures taken <==> SessionPathTaken(archives, path)
  {
    var j := 0;
    while j < |archives|
      invariant 0 <= j <= |archives|
      invariant forall l, i :: 0 <= l < j && 0 <= i < |archives[l].sessions| ==> archives[l].sessions[i].path != path
    {
      var ss := archives[j].sessions;
      var i := 0;
      while i < |ss|
        invariant 0 <= i <= |ss|
        invariant forall m :: 0 <= m < i ==> ss[m].path != path
      {
        if ss[i].path == path {
          return true;
        }
        i := i + 1;
      }
      j := j + 1;
    }
    return false;
  }

  /** `next((s for s in sessions if s['name'] == name), None)`, as a position. */
  method FindFirstNamed(ss: seq<Session>, name: string) returns (k: int)
    ensures k == FirstNamed(ss, name)
  {
    var i := 0;
    while i < |ss|
      invariant 0 <= i <= |ss|
      invariant forall l :: 0 <= l < i ==> ss[l].name != name
    {
      if ss[i].name == name {
        return i;
      }
      i := i + 1;
    }
    return -1;
  }

  /** The `for root, dirs, files in os.walk(temp_dir)` search of `process_single_session_archive`. */
  method FindProfileRoot(steps: seq<WalkStep>) returns (r: Option<string>)
    ensures r == FirstProfileRoot(steps)
  {
    var k := 0;
    while k < |steps|
      invariant 0 <= k <= |steps|
      invariant FirstProfileRoot(steps) == FirstProfileRoot(steps[k..])
    {
      assert steps[k..][0] == steps[k] && steps[k..][1..] == steps[k + 1..];
      if Analyze(steps[k].root, Some(steps[k].node)).isChromeProfile {
        return Some(steps[k].root);
      }
      k := k + 1;
    }
    return None;
  }

  /**
   * The checks and the extraction of `process_single_session_archive`,
   * and the record it builds, for the catalog `s`; None when it stops.
   */
  method UnpackSessionArchive(s: Store, path: string, archive: Option<ArchiveFile>, env: Env, proceed: bool) returns (a: Option<Archive>)
    ensures a == SessionArchiveFor(s, path, archive, env, proceed)
  {
    var taken := FindArchivePath(s.archives, path);
    if taken {
      return None;
    }
    var tempDir := SingleTempDirFor(path);
    if !env.makeDir(tempDir) {
      return None;
    }
    var r := Outcome(archive, env.toolFound, env.runs(path));
    a := RecordExtracted(s, path, r, proceed);
  }

  /** After the extraction: the walk for a profile, the question when there is none, and the record. */
  method RecordExtracted(s: Store, path: string, r: Result<Node, ExtractError>, proceed: bool) returns (a: Option<Archive>)
    ensures a == ExtractedSessionArchive(s, path, r, proceed)
  {
    if r.Err? {
      return None;
    }
    var found := FindProfileRoot(Walk(SingleTempDirFor(path), r.value));
    if found.None? && !proceed {
      return None;
    }
    a := Some(UnpackedSessionArchive(s, path, found));
  }

  /**
   * The loop of `delete_selected_sessions` over the selected items: each
   * pass removes the first session with the item's name, if its
   * directory could be removed.
   */
  method RemoveSessionsNamed(sessions: seq<Session>, names: seq<string>, removeDir: string -> bool) returns (left: seq<Session>)
    ensures left == DeleteByNames(sessions, names, removeDir)
  {
    left := sessions;
    var i := 0;
    while i < |names|
      invariant 0 <= i <= |names|
      invariant left == DeleteByNames(sessions, names[..i], removeDir)
    {
      var k := FindFirstNamed(left, names[i]);
      if k >= 0 && removeDir(left[k].path) {
        left := RemoveAt(left, k);
      }
      assert names[..i + 1][..i] == names[..i];
      i := i + 1;
    }
    assert names[..|names|] == names;
  }

  /** `WhatsAppSessionManager`, reduced to the catalog it keeps. */
  class SessionManager {
    var categories: seq<Category>
    var archives: seq<Archive>
    var currentArchiveIndex: int
    var currentCategoryIndex: int

    function Snapshot(): Store
      reads this
    {
      Store(categories, archives, currentArchiveIndex, currentCategoryIndex)
    }

    /** An empty catalog with nothing selected. */
    constructor ()
      ensures Snapshot() == Store([], [], -1, -1)
      ensures Valid(Snapshot())
    {
      categories := [];
      archives := [];
      currentArchiveIndex := -1;
      currentCategoryIndex := -1;
    }

    method AddCategory(name: string, ok: bool, createdAt: int)
      modifies this
      ensures Snapshot() == WithCategory(old(Snapshot()), name, ok, createdAt)
      ensures old(Valid(Snapshot())) ==> Valid(Snapshot())
    {
      AddCategoryRule(Snapshot(), name, ok, createdAt);
      if ok && name != [] {
        var taken := FindCategoryName(categories, name);
        if taken {
          return;
        }
        categories := categories + [Category(name, createdAt)];
      }
    }

    method RenameCategory(k: int, name: string, ok: bool)
      modifies this
      ensures Snapshot() == Renamed(old(Snapshot()), k, name, ok)
      ensures old(Valid(Snapshot())) ==> Valid(Snapshot())
    {
      RenameCategoryRule(Snapshot(), k, name, ok);
      if k < 0 || k >= |categories| {
        return;
      }
      var oldName := categories[k].name;
      if ok && name != [] && name != oldName {
        var taken := FindCategoryName(categories, name);
        if taken {
          return;
        }
        categories := categories[k := categories[k].(name := name)];
      }
    }

    /** The renumbering loop over the archives, the `pop` and the fix-up of the current category. */
    method DeleteCategory(k: int, confirmed: bool)
      modifies this
      ensures Snapshot() == CategoryDeleted(old(Snapshot()), k, confirmed)
      ensures old(Valid(Snapshot())) ==> Valid(Snapshot())
    {
      DeleteCategoryRule(Snapshot(), k, confirmed);
      if k < 0 || k >= |categories| || !confirmed {
        return;
      }
      var j := 0;
      while j < |archives|
        invariant 0 <= j <= |archives| == |old(archives)|
        invariant forall i :: 0 <= i < j ==> archives[i] == Relinked(old(archives), k)[i]
        invariant forall i :: j <= i < |archives| ==> archives[i] == old(archives)[i]
        invariant categories == old(categories)
        invariant currentArchiveIndex == old(currentArchiveIndex) && currentCategoryIndex == old(currentCategoryIndex)
      {
        var a := archives[j];
        if a.categoryIndex == Some(k) {
          archives := archives[j := a.(categoryIndex := None)];
        } else if a.categoryIndex.Some? && a.categoryIndex.value > k {
          archives := archives[j := a.(categoryIndex := Some(a.categoryIndex.value - 1))];
        }
        j := j + 1;
      }
      assert archives == Relinked(old(archives), k);
      categories := RemoveAt(categories, k);
      if k == currentCategoryIndex {
        currentCategoryIndex := -1;
      } else if currentCategoryIndex > k {
        currentCategoryIndex := currentCategoryIndex - 1;
      }
    }

    method MoveArchiveToCategory(j: int, target: Option<int>)
      modifies this
      ensures Snapshot() == Moved(old(Snapshot()), j, target)
      ensures old(Valid(Snapshot())) ==> Valid(Snapshot())
    {
      MoveRule(Snapshot(), j, target);
      if j < 0 || j >= |archives| {
        return;
      }
      if target.Some? && (target.value < 0 || target.value >= |categories|) {
        return;
      }
      archives := archives[j := archives[j].(categoryIndex := if target.Some? then Some(target.value as nat) else None)];
    }

    /** The slot of the worker's `finished` signal. */
    method ExtractionFinished(sessions: seq<Session>, name: string, path: string)
      modifies this
      ensures Snapshot() == Appended(old(Snapshot()), FinishedArchive(old(Snapshot()), sessions, name, path))
      ensures old(Valid(Snapshot())) ==> Valid(Snapshot())
    {
      if Valid(Snapshot()) {
        AppendKeepsValid(Snapshot(), FinishedArchive(Snapshot(), sessions, name, path));
      }
      var extracted := if sessions != [] then RemoveAll(sessions[0].path, [Sep] + sessions[0].name) else "";
      var category := if currentCategoryIndex >= 0 then Some(currentCategoryIndex as nat) else None;
      archives := archives + [Archive(name, path, extracted, sessions, category, false, false)];
      currentArchiveIndex := |archives| - 1;
    }

    /** `process_archive(path)`, the worker's run on it, and the slot its terminal signal reaches. */
    method ProcessArchive(path: string, node: Option<Node>, env: Env)
      modifies this
      ensures Snapshot() == IngestArchive(old(Snapshot()), path, node, env)
      ensures old(Valid(Snapshot())) ==> Valid(Snapshot())
    {
      IngestArchiveRule(Snapshot(), path, node, env);
      if !(node.Some? && node.value.readable) {
        return;
      }
      var taken := FindArchivePath(archives, path);
      if taken {
        return;
      }
      var tempDir := Join(Dirname(path), ExtractedPrefix + Basename(path));
      if !env.makeDir(tempDir) {
        return;
      }
      var events := RunWorker(env, path, node, true, tempDir);
      var last := events[|events| - 1];
      if last.Finished? {
        ExtractionFinished(last.sessions, last.name, last.path);
      }
    }

    /** `process_folder(path)`, the worker's run on it, and the slot its terminal signal reaches. */
    method ProcessFolder(path: string, node: Option<Node>, env: Env)
      modifies this
      ensures Snapshot() == IngestFolder(old(Snapshot()), path, node, env)
      ensures old(Valid(Snapshot())) ==> Valid(Snapshot())
    {
      IngestFolderRule(Snapshot(), path, node, env);
      var taken := FindArchivePath(archives, path);
      if taken {
        return;
      }
      var tempDir := Join(Dirname(path), ExtractedPrefix + Basename(path));
      if !env.makeDir(tempDir) {
        return;
      }
      var events := RunWorker(env, path, node, false, tempDir);
      var last := events[|events| - 1];
      if last.Finished? {
        ExtractionFinished(last.sessions, last.name, last.path);
      }
    }

    method ProcessSingleSession(path: string)
      modifies this
      ensures Snapshot() == IngestSingleSession(old(Snapshot()), path)
      ensures old(Valid(Snapshot())) ==> Valid(Snapshot())
    {
      IngestSingleSessionRule(Snapshot(), path);
      var taken := FindSessionPath(archives, path);
      if taken {
        return;
      }
      var name := Basename(path);
      var category := if currentCategoryIndex >= 0 then Some(currentCategoryIndex as nat) else None;
      archives := archives + [Archive(SingleSessionPrefix + name, path, path, [Session(name, path)], category, true, false)];
      currentArchiveIndex := |archives| - 1;
    }

    /**
     * `process_single_session_archive(path)`: `archive` is what the
     * extractor's checks see at `path`, `proceed` the answer to the
     * question asked when no profile is found.
     */
    method ProcessSingleSessionArchive(path: string, archive: Option<ArchiveFile>, env: Env, proceed: bool)
      modifies this
      ensures Snapshot() == IngestSessionArchive(old(Snapshot()), path, archive, env, proceed)
      ensures old(Valid(Snapshot())) ==> Valid(Snapshot())
    {
      var a := UnpackSessionArchive(Snapshot(), path, archive, env, proceed);
      if a.None? {
        return;
      }
      if Valid(Snapshot()) {
        AppendKeepsValid(Snapshot(), a.value);
      }
      archives := archives + [a.value];
      currentArchiveIndex := |archives| - 1;
    }

    /** `delete_selected_archive`: the directory is removed first, and only then the record. */
    method DeleteSelectedArchive(confirmed: bool, removeDir: string -> bool)
      modifies this
      ensures Snapshot() == ArchiveDeleted(old(Snapshot()), confirmed, removeDir)
      ensures old(Valid(Snapshot())) ==> Valid(Snapshot())
    {
      DeleteArchiveRule(Snapshot(), confirmed, removeDir);
      if currentArchiveIndex < 0 || currentArchiveIndex >= |archives| {
        return;
      }
      var a := archives[currentArchiveIndex];
      if !confirmed {
        return;
      }
      if !removeDir(a.extractedPath) {
        return;
      }
      archives := RemoveAt(archives, currentArchiveIndex);
      currentArchiveIndex := -1;
    }

    /** `delete_selected_sessions` for the names of the selected items, one pass per item. */
    method DeleteSelectedSessions(names: seq<string>, confirmed: bool, removeDir: string -> bool)
      modifies this
      ensures Snapshot() == SessionsDeleted(old(Snapshot()), names, confirmed, removeDir)
      ensures old(Valid(Snapshot())) ==> Valid(Snapshot())
    {
      SessionsDeletedRule(Snapshot(), names, confirmed, removeDir);
      if currentArchiveIndex < 0 || names == [] || !confirmed || currentArchiveIndex >= |archives| {
        return;
      }
      var c := currentArchiveIndex;
      var left := RemoveSessionsNamed(archives[c].sessions, names, removeDir);
      archives := archives[c := archives[c].(sessions := left)];
    }
  }
}
