/**
 * The Chrome-profile classifier `analyze_session_folder`: given a path and
 * what the file system holds there, it decides whether the folder is a
 * Chrome profile, whether it has a `Default` sub-folder, and which
 * directory Chrome should be given as its user-data directory.
 */
module Profile {
  import opened Wrappers
  import opened Paths
  import opened FileSystem

  /** The files whose presence marks a Chrome profile directory. */
  const ProfileFiles: seq<string> := ["Cookies", "Web Data", "History", "Login Data", "Preferences"]

  const DefaultFolder: string := "Default"
  const LocalStorage: string := "Local Storage"
  const LevelDb: string := "leveldb"

  datatype FolderInfo = FolderInfo(isChromeProfile: bool, hasDefaultFolder: bool, defaultPath: Option<string>)

  /** The answer for anything that is not a readable directory. */
  const NotProfile: FolderInfo := FolderInfo(false, false, None)

  /** The names of `names` present in `n`, in list order (`profile_files_present`). */
  function Present(n: Node, names: seq<string>): (r: seq<string>)
    ensures forall f :: f in r <==> f in names && Has(n, f)
  {
    if names == [] then []
    else (if Has(n, names[0]) then [names[0]] else []) + Present(n, names[1..])
  }

  /** Some marker file is present in `n`. */
  predicate HasMarker(n: Node)
  {
    exists f :: f in ProfileFiles && Has(n, f)
  }

  /** `n` has a `Default` sub-directory that holds a marker file. */
  predicate HasMarkedDefault(n: Node)
  {
    HasDir(n, DefaultFolder) && HasMarker(Child(n, DefaultFolder).value)
  }

  /** `Local Storage\leveldb` exists below `n`. */
  predicate HasLevelDb(n: Node)
  {
    Has(n, LocalStorage) && Has(Child(n, LocalStorage).value, LevelDb)
  }

  predicate ExistingDir(node: Option<Node>)
  {
    node.Some? && Listable(node.value)
  }

  /**
   * The classification stated without the cascade: a readable directory
   * is a profile when it holds a marker file itself, when its `Default`
   * sub-directory does, or when it has `Local Storage\leveldb`.
   */
  predicate IsProfile(node: Option<Node>)
  {
    ExistingDir(node) && (HasMarker(node.value) || HasMarkedDefault(node.value) || HasLevelDb(node.value))
  }

  /** The folder is itself called `Default` and holds a marker file. */
  predicate IsDefaultProfile(path: string, node: Option<Node>)
  {
    ExistingDir(node) && Basename(path) == DefaultFolder && HasMarker(node.value)
  }

  /**
   * `analyze_session_folder(path)` when `node` is what exists at `path`
   * (None: nothing does). The rules are tried in the source's order and
   * the first that fires returns; the `Default` sub-folder fields, once
   * set, survive the later rules. `AnalyzeMeans` states what it decides.
   */
  function Analyze(path: string, node: Option<Node>): FolderInfo
  {
    if !ExistingDir(node) then NotProfile
    else
      var n := node.value;
      if Basename(path) == DefaultFolder && |Present(n, ProfileFiles)| > 0 then
        FolderInfo(true, true, Some(Dirname(path)))
      else
        var found := if HasDir(n, DefaultFolder) then FolderInfo(false, true, Some(path)) else NotProfile;
        var defaultMarked := HasDir(n, DefaultFolder) && |Present(Child(n, DefaultFolder).value, ProfileFiles)| > 0;
        if defaultMarked then
          found.(isChromeProfile := true)
        else
          var own := Present(n, ProfileFiles);
          if |own| > 0 then
            found.(isChromeProfile := true)
          else if Has(n, LocalStorage) && (|own| > 0 || Has(Child(n, LocalStorage).value, LevelDb)) then
            found.(isChromeProfile := true)
          else
            found
  }

  /**
   * The cascade decides what the rules say without their order: a profile
   * exactly when some rule holds; a `Default` folder reported exactly when
   * the folder is a marked `Default` itself or has a `Default`
   * sub-directory, always together with a path, which is the parent for a
   * marked `Default` and the folder itself otherwise; nothing at all for
   * what is not a readable directory.
   */
  lemma AnalyzeMeans(path: string, node: Option<Node>)
    ensures var r := Analyze(path, node);
            && (!ExistingDir(node) ==> r == NotProfile)
            && (r.isChromeProfile <==> IsProfile(node))
            && (r.hasDefaultFolder <==> r.defaultPath.Some?)
            && (r.hasDefaultFolder <==> IsDefaultProfile(path, node) || (ExistingDir(node) && HasDir(node.value, DefaultFolder)))
            && (r.defaultPath.Some? ==> r.defaultPath.value == (if IsDefaultProfile(path, node) then Dirname(path) else path))
  {
    if ExistingDir(node) {
      var n := node.value;
      MarkersPresentIff(n);
      if HasDir(n, DefaultFolder) {
        MarkersPresentIff(Child(n, DefaultFolder).value);
      }
    }
  }

  /** The `Present` list is empty exactly when no marker is present. */
  lemma MarkersPresentIff(n: Node)
    ensures |Present(n, ProfileFiles)| > 0 <==> HasMarker(n)
  {
    var r := Present(n, ProfileFiles);
    if |r| > 0 {
      assert r[0] in r;
    }
  }

  // ---------------------------------------------------------------------
  // Scenarios

  /** A `Default` folder holding `Cookies` is a profile whose user-data directory is its parent. */
  lemma DefaultWithCookies(parent: string, cookies: Node, rest: seq<Entry>)
    requires parent != [] && !IsSep(parent[|parent| - 1])
    ensures Analyze(Join(parent, DefaultFolder), Some(Dir(true, [Entry("Cookies", cookies)] + rest)))
         == FolderInfo(true, true, Some(parent))
  {
    var n := Dir(true, [Entry("Cookies", cookies)] + rest);
    assert n.entries[0].name == "Cookies";
    assert "Cookies" in ProfileFiles && Has(n, "Cookies");
    MarkersPresentIff(n);
    BasenameOfJoin(parent, DefaultFolder);
    DirnameOfJoin(parent, DefaultFolder);
  }

  /**
   * A readable folder without marker files or `Local Storage\leveldb` whose
   * `Default` sub-folder holds no marker either is not a profile, yet it
   * reports its `Default` folder with itself as the user-data directory.
   */
  lemma MarkerlessDefault(path: string, n: Node)
    requires Listable(n) && HasDir(n, DefaultFolder)
    requires !HasMarker(n) && !HasMarker(Child(n, DefaultFolder).value) && !HasLevelDb(n)
    ensures Analyze(path, Some(n)) == FolderInfo(false, true, Some(path))
  {
    MarkersPresentIff(n);
    MarkersPresentIff(Child(n, DefaultFolder).value);
  }

  /** The same, for the smallest such folder: one empty `Default` sub-folder. */
  lemma EmptyDefaultFolder(path: string)
    ensures Analyze(path, Some(Dir(true, [Entry(DefaultFolder, Dir(true, []))])))
         == FolderInfo(false, true, Some(path))
  {
    var d := Dir(true, []);
    var n := Dir(true, [Entry(DefaultFolder, d)]);
    assert Child(n, DefaultFolder) == Some(d);
    forall f | f in ProfileFiles
      ensures !Has(n, f) && !Has(d, f)
    {
      assert f != DefaultFolder;
    }
    assert !Has(n, LocalStorage);
    MarkerlessDefault(path, n);
  }

  /** An empty readable folder, a file, an unreadable folder and a missing path are no profile. */
  lemma NothingToFind(path: string, size: nat, readable: bool, entries: seq<Entry>)
    ensures Analyze(path, Some(Dir(true, []))) == NotProfile
    ensures Analyze(path, Some(File(size, readable))) == NotProfile
    ensures Analyze(path, Some(Dir(false, entries))) == NotProfile
    ensures Analyze(path, None) == NotProfile
  {
    var n := Dir(true, []);
    assert !HasDir(n, DefaultFolder) && !Has(n, LocalStorage);
    assert forall f :: !Has(n, f);
  }

  /**
   * The `Local Storage` rule adds only `Local Storage\leveldb`: a folder
   * with no marker of its own or in its `Default` is a profile exactly
   * when that directory exists, whether or not `Local Storage` alone does.
   */
  lemma LocalStorageRule(path: string, n: Node)
    requires Listable(n) && !HasMarker(n) && !HasMarkedDefault(n)
    ensures Analyze(path, Some(n)).isChromeProfile <==> HasLevelDb(n)
  {
    AnalyzeMeans(path, Some(n));
  }

  /** `Local Storage` without `leveldb` inside does not make a profile. */
  lemma LocalStorageWithoutLevelDb(path: string)
    ensures !Analyze(path, Some(Dir(true, [Entry(LocalStorage, Dir(true, []))]))).isChromeProfile
  {
    var ls := Dir(true, []);
    var n := Dir(true, [Entry(LocalStorage, ls)]);
    assert Child(n, LocalStorage) == Some(ls);
    assert !Has(ls, LevelDb);
    forall f | f in ProfileFiles
      ensures !Has(n, f)
    {
      assert f != LocalStorage;
    }
    assert !HasDir(n, DefaultFolder);
    AnalyzeMeans(path, Some(n));
  }
}
