/**
 * The discovery pipeline `ExtractionWorker.run`: open the input (extract
 * an archive into the working directory, or take a folder as it is),
 * then find the sessions in it. The working root may itself be a
 * profile; otherwise nested session archives are looked for and
 * extracted one by one, and when there are none, profile folders up to
 * three levels down are collected. Progress and the final answer are
 * returned as the sequence of signals the worker emits.
 */
module Discovery {
  import opened Wrappers
  import opened Paths
  import opened FileSystem
  import opened Profile
  import opened ArchiveTool

  /** A session: a display name and the directory Chrome is started on. */
  datatype Session = Session(name: string, path: string)

  /** A nested archive found by the scan, with the file as the extraction checks see it. */
  datatype Candidate = Candidate(path: string, file: ArchiveFile)

  datatype FailReason = MakeDirFailed | ExtractFailed(error: ExtractError)

  /** An entry of `failed_archives`. */
  datatype Failure = Failure(path: string, reason: FailReason)

  /** A line of the error report: `<number>. <path>: <error>`. */
  datatype NumberedFailure = NumberedFailure(number: nat, path: string, reason: FailReason)

  datatype WorkerError =
    | ArchiveNotFound
    | ArchiveNotReadable
    | NotAFile
    | CannotCreateDir(dir: string)
    | ExtractionError(error: ExtractError)
    | FolderNotFound
    | NotADirectory
    | NothingFound
    | AllFailed(report: seq<NumberedFailure>)
    | NoSessions

  /** The worker's signals: `progress`, `finished(sessions, name, path)` and `error`. */
  datatype Event = Progress(percent: int) | Finished(sessions: seq<Session>, name: string, path: string) | Failed(error: WorkerError)

  /**
   * The answers of the environment: whether the extractor was found, how
   * each archive's extraction goes, and whether `os.makedirs(p,
   * exist_ok=True)` leaves a directory at `p`.
   */
  datatype Env = Env(toolFound: bool, runs: string -> ToolRun, makeDir: string -> bool)

  /** The deepest walk level below the working root searched for profile folders. */
  const MaxDepth: nat := 3

  function EntriesOf(n: Node): seq<Entry>
  {
    if n.Dir? then n.entries else []
  }

  /** The lists `f` gives for the elements of `xs`, concatenated in order. */
  function Flatten<A, B>(xs: seq<A>, f: A -> seq<B>): seq<B>
  {
    if xs == [] then [] else Flatten(xs[..|xs| - 1], f) + f(xs[|xs| - 1])
  }

  /** One more element adds its list at the end. */
  lemma FlattenSnoc<A, B>(xs: seq<A>, i: nat, f: A -> seq<B>)
    requires i < |xs|
    ensures Flatten(xs[..i + 1], f) == Flatten(xs[..i], f) + f(xs[i])
  {
    assert xs[..i + 1][..i] == xs[..i];
  }

  lemma {:induction false} FlattenIff<A, B>(xs: seq<A>, f: A -> seq<B>, b: B)
    ensures b in Flatten(xs, f) <==> exists k :: 0 <= k < |xs| && b in f(xs[k])
    decreases |xs|
  {
    if xs != [] {
      var init := xs[..|xs| - 1];
      FlattenIff(init, f, b);
      assert forall k :: 0 <= k < |init| ==> init[k] == xs[k];
    }
  }

  // ---------------------------------------------------------------------
  // Candidate scan

  /** What the scan keeps: an archive name of at least the minimum size. */
  predicate ArchiveEntry(e: Entry)
  {
    e.node.File? && IsArchiveName(e.name) && e.node.size >= MinArchiveSize
  }

  function CandidateOf(root: string, e: Entry): seq<Candidate>
  {
    if ArchiveEntry(e) then [Candidate(Join(root, e.name), ArchiveFile(e.node.size, e.node.readable))] else []
  }

  function CandidatesUnder(root: string): Entry -> seq<Candidate>
  {
    e => CandidateOf(root, e)
  }

  /** The candidates among the files of one walk step, in listing order. */
  function StepCandidates(step: WalkStep): seq<Candidate>
  {
    Flatten(Files(EntriesOf(step.node)), CandidatesUnder(step.root))
  }

  /** `session_archives`: the candidates of all walk steps, in walk order. */
  function Candidates(steps: seq<WalkStep>): seq<Candidate>
  {
    Flatten(steps, StepCandidates)
  }

  method ScanFiles(root: string, files: seq<Entry>) returns (found: seq<Candidate>)
    ensures found == Flatten(files, CandidatesUnder(root))
  {
    found := [];
    var j := 0;
    while j < |files|
      invariant 0 <= j <= |files|
      invariant found == Flatten(files[..j], CandidatesUnder(root))
    {
      var e := files[j];
      if e.node.File? && IsArchiveName(e.name) && e.node.size >= MinArchiveSize {
        found := found + [Candidate(Join(root, e.name), ArchiveFile(e.node.size, e.node.readable))];
      }
      FlattenSnoc(files, j, CandidatesUnder(root));
      j := j + 1;
    }
    assert files[..j] == files;
  }

  method ScanCandidates(steps: seq<WalkStep>) returns (cands: seq<Candidate>)
    ensures cands == Candidates(steps)
  {
    cands := [];
    var k := 0;
    while k < |steps|
      invariant 0 <= k <= |steps|
      invariant cands == Candidates(steps[..k])
    {
      var found := ScanFiles(steps[k].root, Files(EntriesOf(steps[k].node)));
      cands := cands + found;
      FlattenSnoc(steps, k, StepCandidates);
      k := k + 1;
    }
    assert steps[..k] == steps;
  }

  /**
   * The scan finds exactly the files of the walk whose lower-cased name
   * ends in an archive extension and that are at least the minimum size,
   * each under its own directory's path.
   */
  lemma ScanFindsArchives(steps: seq<WalkStep>, c: Candidate)
    ensures c in Candidates(steps) <==>
      exists k, e :: 0 <= k < |steps| && e in EntriesOf(steps[k].node) && ArchiveEntry(e)
                  && c == Candidate(Join(steps[k].root, e.name), ArchiveFile(e.node.size, e.node.readable))
  {
    FlattenIff(steps, StepCandidates, c);
    forall k | 0 <= k < |steps|
      ensures c in StepCandidates(steps[k]) <==>
        exists e :: e in EntriesOf(steps[k].node) && ArchiveEntry(e)
                 && c == Candidate(Join(steps[k].root, e.name), ArchiveFile(e.node.size, e.node.readable))
    {
      FlattenIff(Files(EntriesOf(steps[k].node)), CandidatesUnder(steps[k].root), c);
    }
  }

  // ---------------------------------------------------------------------
  // Profile search

  /** The walk level of `root` below `top`, computed as the source does: the separators left after deleting `top`. */
  function Depth(root: string, top: string): nat
  {
    CountChar(RemoveAll(root, top), Sep)
  }

  /** What the search keeps of a sub-directory: a readable profile folder. */
  predicate ProfileEntry(root: string, d: Entry)
  {
    d.node.Dir? && d.node.readable && Analyze(Join(root, d.name), Some(d.node)).isChromeProfile
  }

  function ProfileOf(root: string, d: Entry): seq<Session>
  {
    if ProfileEntry(root, d) then [Session(d.name, Join(root, d.name))] else []
  }

  function ProfilesUnder(root: string): Entry -> seq<Session>
  {
    d => ProfileOf(root, d)
  }

  function StepProfiles(top: string, step: WalkStep): seq<Session>
  {
    if Depth(step.root, top) > MaxDepth then [] else Flatten(Dirs(EntriesOf(step.node)), ProfilesUnder(step.root))
  }

  function ProfilesBelow(top: string): WalkStep -> seq<Session>
  {
    step => StepProfiles(top, step)
  }

  /** `chrome_profiles`: the profile folders among the sub-directories of the walk steps not too deep below `top`. */
  function Profiles(top: string, steps: seq<WalkStep>): seq<Session>
  {
    Flatten(steps, ProfilesBelow(top))
  }

  method SearchDirs(root: string, dirs: seq<Entry>) returns (found: seq<Session>)
    ensures found == Flatten(dirs, ProfilesUnder(root))
  {
    found := [];
    var j := 0;
    while j < |dirs|
      invariant 0 <= j <= |dirs|
      invariant found == Flatten(dirs[..j], ProfilesUnder(root))
    {
      var d := dirs[j];
      var p := Join(root, d.name);
      if d.node.Dir? && d.node.readable && Analyze(p, Some(d.node)).isChromeProfile {
        found := found + [Session(d.name, p)];
      }
      FlattenSnoc(dirs, j, ProfilesUnder(root));
      j := j + 1;
    }
    assert dirs[..j] == dirs;
  }

  method SearchProfiles(top: string, steps: seq<WalkStep>) returns (found: seq<Session>)
    ensures found == Profiles(top, steps)
  {
    found := [];
    var k := 0;
    while k < |steps|
      invariant 0 <= k <= |steps|
      invariant found == Profiles(top, steps[..k])
    {
      var step := steps[k];
      if Depth(step.root, top) <= MaxDepth {
        var here := SearchDirs(step.root, Dirs(EntriesOf(step.node)));
        found := found + here;
      }
      FlattenSnoc(steps, k, ProfilesBelow(top));
      k := k + 1;
    }
    assert steps[..k] == steps;
  }

  /**
   * The search reports exactly the readable profile folders that are
   * sub-directories of a walk step at most three levels below `top`,
   * each named after its folder.
   */
  lemma SearchFindsProfiles(top: string, steps: seq<WalkStep>, s: Session)
    ensures s in Profiles(top, steps) <==>
      exists k, d :: 0 <= k < |steps| && Depth(steps[k].root, top) <= MaxDepth
                  && d in EntriesOf(steps[k].node) && ProfileEntry(steps[k].root, d)
                  && s == Session(d.name, Join(steps[k].root, d.name))
  {
    FlattenIff(steps, ProfilesBelow(top), s);
    forall k | 0 <= k < |steps| && Depth(steps[k].root, top) <= MaxDepth
      ensures s in StepProfiles(top, steps[k]) <==>
        exists d :: d in EntriesOf(steps[k].node) && ProfileEntry(steps[k].root, d)
                 && s == Session(d.name, Join(steps[k].root, d.name))
    {
      FlattenIff(Dirs(EntriesOf(steps[k].node)), ProfilesUnder(steps[k].root), s);
    }
  }

  /** The working root itself is at level 0. */
  lemma TopIsLevelZero(top: string)
    ensures Depth(top, top) == 0
  {
    if top != [] {
      assert top[..|top|] == top;
      assert top[|top|..] == [];
    }
  }

  /** Every readable profile folder directly inside the working root is reported. */
  lemma ProfilesOfTopAreFound(top: string, n: Node, d: Entry)
    requires Listable(n) && d in n.entries && ProfileEntry(top, d)
    ensures Session(d.name, Join(top, d.name)) in Profiles(top, Walk(top, n))
  {
    var steps := Walk(top, n);
    TopIsLevelZero(top);
    assert steps[0] == WalkStep(top, n);
    SearchFindsProfiles(top, steps, Session(d.name, Join(top, d.name)));
  }

  // ---------------------------------------------------------------------
  // Profile folder inside an extracted session

  /** The index of the first element of `xs` that satisfies `p`, or `|xs|` when none does. */
  function FirstWhere<T>(xs: seq<T>, p: T -> bool): (r: nat)
    ensures r <= |xs|
    ensures r < |xs| ==> p(xs[r])
    ensures forall j :: 0 <= j < r ==> !p(xs[j])
  {
    if xs == [] then 0
    else if p(xs[0]) then 0
    else 1 + FirstWhere(xs[1..], p)
  }

  /** One step of a search for the first match: at `j`, the search either stops or goes on. */
  lemma FirstWhereNext<T>(xs: seq<T>, p: T -> bool, j: nat, found: bool)
    requires j < |xs| && j <= FirstWhere(xs, p) && found == p(xs[j])
    ensures found ==> FirstWhere(xs, p) == j
    ensures !found ==> j + 1 <= FirstWhere(xs, p)
  {
  }

  /** The first profile folder among `dirs`, as its path below `root`. */
  function FirstIn(root: string, dirs: seq<Entry>): Option<string>
  {
    var i := FirstWhere(dirs, d => IsProfileDir(root, d));
    if i < |dirs| then Some(Join(root, dirs[i].name)) else None
  }

  /** The entry `d` below `root` is a profile folder (readable or not: the nested search does not ask). */
  predicate IsProfileDir(root: string, d: Entry)
  {
    Analyze(Join(root, d.name), Some(d.node)).isChromeProfile
  }

  /** No sub-directory of `step` is a profile folder. */
  predicate NoProfileDir(step: WalkStep)
  {
    var dirs := Dirs(EntriesOf(step.node));
    forall i :: 0 <= i < |dirs| ==> !IsProfileDir(step.root, dirs[i])
  }

  /** The first profile folder met by the walk, if any: the folder extracted from a nested archive is searched for it. */
  function FirstProfileDir(steps: seq<WalkStep>): Option<string>
  {
    if steps == [] then None
    else
      var here := FirstIn(steps[0].root, Dirs(EntriesOf(steps[0].node)));
      if here.Some? then here else FirstProfileDir(steps[1..])
  }

  /**
   * The search among `dirs` finds nothing exactly when no entry is a
   * profile folder, and otherwise finds the first entry that is one.
   */
  lemma FirstInMeans(root: string, dirs: seq<Entry>)
    ensures var r := FirstIn(root, dirs);
            && (r.None? <==> forall i :: 0 <= i < |dirs| ==> !IsProfileDir(root, dirs[i]))
            && (r.Some? ==> exists i :: 0 <= i < |dirs| && r.value == Join(root, dirs[i].name)
                              && IsProfileDir(root, dirs[i])
                              && forall j :: 0 <= j < i ==> !IsProfileDir(root, dirs[j]))
  {
    FirstInNone(root, dirs);
    FirstInFirst(root, dirs);
  }

  lemma FirstInNone(root: string, dirs: seq<Entry>)
    ensures FirstIn(root, dirs).None? <==> forall i :: 0 <= i < |dirs| ==> !IsProfileDir(root, dirs[i])
  {
    var p := d => IsProfileDir(root, d);
    var i := FirstWhere(dirs, p);
    if i < |dirs| {
      assert p(dirs[i]);
    } else {
      assert forall j :: 0 <= j < |dirs| ==> !p(dirs[j]);
    }
  }

  lemma FirstInFirst(root: string, dirs: seq<Entry>)
    ensures var r := FirstIn(root, dirs);
            r.Some? ==> exists i :: 0 <= i < |dirs| && r.value == Join(root, dirs[i].name)
                          && IsProfileDir(root, dirs[i])
                          && forall j :: 0 <= j < i ==> !IsProfileDir(root, dirs[j])
  {
    var p := d => IsProfileDir(root, d);
    var i := FirstWhere(dirs, p);
    if i < |dirs| {
      assert forall j :: 0 <= j < i ==> !p(dirs[j]);
      assert FirstIn(root, dirs).value == Join(root, dirs[i].name) && IsProfileDir(root, dirs[i])
             && forall j :: 0 <= j < i ==> !IsProfileDir(root, dirs[j]);
    }
  }

  /**
   * The walk finds no profile folder exactly when no step has one among
   * its sub-directories, and otherwise finds what the first step that has
   * one finds: the first profile folder in walk order.
   */
  lemma {:induction false} FirstProfileDirMeans(steps: seq<WalkStep>)
    ensures var r := FirstProfileDir(steps);
            && (r.None? <==> forall k :: 0 <= k < |steps| ==> NoProfileDir(steps[k]))
            && (r.Some? ==> exists k :: 0 <= k < |steps| && r == FirstIn(steps[k].root, Dirs(EntriesOf(steps[k].node)))
                              && forall l :: 0 <= l < k ==> NoProfileDir(steps[l]))
  {
    FirstProfileDirNone(steps);
    FirstProfileDirFirst(steps);
  }

  lemma {:induction false} FirstProfileDirNone(steps: seq<WalkStep>)
    ensures FirstProfileDir(steps).None? <==> forall k :: 0 <= k < |steps| ==> NoProfileDir(steps[k])
  {
    if steps != [] {
      NoProfileDirMeans(steps[0]);
      FirstProfileDirNone(steps[1..]);
      assert forall k :: 1 <= k < |steps| ==> steps[k] == steps[1..][k - 1];
    }
  }

  lemma {:induction false} FirstProfileDirFirst(steps: seq<WalkStep>)
    ensures FirstProfileDir(steps).Some? ==> exists k :: 0 <= k < |steps| && FirstStep(steps, k)
  {
    if steps != [] {
      var here := FirstIn(steps[0].root, Dirs(EntriesOf(steps[0].node)));
      if here.Some? {
        assert FirstStep(steps, 0);
      } else {
        var tail := steps[1..];
        FirstProfileDirFirst(tail);
        if FirstProfileDir(tail).Some? {
          var k :| 0 <= k < |tail| && FirstStep(tail, k);
          FirstStepShift(steps, k);
        }
      }
    }
  }

  /** Behind a first step without a profile folder, the witness moves one step on. */
  lemma FirstStepShift(steps: seq<WalkStep>, k: nat)
    requires 0 < |steps| && k < |steps| - 1
    requires FirstIn(steps[0].root, Dirs(EntriesOf(steps[0].node))).None?
    requires FirstStep(steps[1..], k)
    ensures FirstStep(steps, k + 1)
  {
    NoProfileDirMeans(steps[0]);
    var tail := steps[1..];
    assert forall l :: 1 <= l <= k + 1 ==> steps[l] == tail[l - 1];
  }

  /** The walk's result is what step `k` finds, and no step before it has a profile folder. */
  predicate FirstStep(steps: seq<WalkStep>, k: nat)
    requires k < |steps|
  {
    FirstProfileDir(steps) == FirstIn(steps[k].root, Dirs(EntriesOf(steps[k].node)))
    && forall l :: 0 <= l < k ==> NoProfileDir(steps[l])
  }

  /** A step has no profile folder exactly when the search among its sub-directories finds none. */
  lemma NoProfileDirMeans(step: WalkStep)
    ensures NoProfileDir(step) <==> FirstIn(step.root, Dirs(EntriesOf(step.node))).None?
  {
    FirstInMeans(step.root, Dirs(EntriesOf(step.node)));
  }

  method FirstInDirs(root: string, dirs: seq<Entry>) returns (r: Option<string>)
    ensures r == FirstIn(root, dirs)
  {
    ghost var isProfile := d => IsProfileDir(root, d);
    r := None;
    var j := 0;
    while j < |dirs| && r.None?
      invariant 0 <= j <= |dirs|
      invariant r.None? ==> j <= FirstWhere(dirs, isProfile)
      invariant r.Some? ==> 0 < j && FirstWhere(dirs, isProfile) == j - 1 && r == Some(Join(root, dirs[j - 1].name))
    {
      var found := IsProfileDir(root, dirs[j]);
      FirstWhereNext(dirs, isProfile, j, found);
      if found {
        r := Some(Join(root, dirs[j].name));
      }
      j := j + 1;
    }
  }

  /** The search of the source's `found_profile` loop: walk steps in order, stopping at the first profile folder. */
  method FindProfileDir(steps: seq<WalkStep>) returns (r: Option<string>)
    ensures r == FirstProfileDir(steps)
  {
    r := None;
    var k := 0;
    while k < |steps| && r.None?
      invariant 0 <= k <= |steps|
      invariant r.None? ==> FirstProfileDir(steps) == FirstProfileDir(steps[k..])
      invariant r.Some? ==> r == FirstProfileDir(steps)
    {
      assert steps[k..][0] == steps[k] && steps[k..][1..] == steps[k + 1..];
      r := FirstInDirs(steps[k].root, Dirs(EntriesOf(steps[k].node)));
      k := k + 1;
    }
    if r.None? {
      assert steps[k..] == [];
    }
  }

  // ---------------------------------------------------------------------
  // Redirecting a session to the profile folder found inside it

  /** Index of the first session called `name`, or -1. */
  function FirstNamed(sessions: seq<Session>, name: string): (r: int)
    ensures -1 <= r < |sessions|
    ensures r >= 0 ==> sessions[r].name == name
    ensures forall j :: 0 <= j < |sessions| && (r < 0 || j < r) ==> sessions[j].name != name
  {
    if sessions == [] then -1
    else if sessions[0].name == name then 0
    else
      var r := FirstNamed(sessions[1..], name);
      if r < 0 then -1 else r + 1
  }

  /** The path update of the source's inner `for session in sessions` loop: the first session called `name` now points at `path`. */
  function RedirectFirst(sessions: seq<Session>, name: string, path: string): (r: seq<Session>)
  {
    var i := FirstNamed(sessions, name);
    if i < 0 then sessions else sessions[i := sessions[i].(path := path)]
  }

  method Redirect(sessions: seq<Session>, name: string, path: string) returns (r: seq<Session>)
    ensures r == RedirectFirst(sessions, name, path)
  {
    var i := 0;
    while i < |sessions|
      invariant 0 <= i <= |sessions|
      invariant forall j :: 0 <= j < i ==> sessions[j].name != name
    {
      if sessions[i].name == name {
        r := sessions[i := sessions[i].(path := path)];
        return;
      }
      i := i + 1;
    }
    r := sessions;
  }

  /**
   * Only the first session with the name is touched, and only its path;
   * the names, the length and every other session stay as they were.
   */
  lemma RedirectOnlyFirst(sessions: seq<Session>, name: string, path: string)
    ensures |RedirectFirst(sessions, name, path)| == |sessions|
    ensures forall j :: 0 <= j < |sessions| ==> RedirectFirst(sessions, name, path)[j].name == sessions[j].name
    ensures forall j :: 0 <= j < |sessions| && (sessions[j].name != name || exists l :: 0 <= l < j && sessions[l].name == name)
              ==> RedirectFirst(sessions, name, path)[j] == sessions[j]
    ensures forall j :: 0 <= j < |sessions| && sessions[j].name == name && (forall l :: 0 <= l < j ==> sessions[l].name != name)
              ==> RedirectFirst(sessions, name, path)[j].path == path
  {
  }

  // ---------------------------------------------------------------------
  // Nested extraction

  /** `os.path.splitext(os.path.basename(archive_path))[0]` */
  function SessionName(c: Candidate): string
  {
    Stem(Basename(c.path))
  }

  function SessionDir(tempDir: string, c: Candidate): string
  {
    Join(tempDir, SessionName(c))
  }

  /**
   * The percentage after the `i`-th of `total` archives, in integer
   * arithmetic: 40 plus its share of the remaining 60.
   */
  function Percent(i: nat, total: nat): int
    requires i < total
  {
    40 + (i + 1) * 60 / total
  }

  /** `os.makedirs(session_dir)` and the extraction into it: the extracted directory, or why it failed. */
  function Unpack(env: Env, tempDir: string, c: Candidate): Result<Node, FailReason>
  {
    if !env.makeDir(SessionDir(tempDir, c)) then Err(MakeDirFailed)
    else
      var r := Outcome(Some(c.file), env.toolFound, env.runs(c.path));
      if r.Err? then Err(ExtractFailed(r.error)) else Ok(r.value)
  }

  /** Where the session really is: nowhere else when the extracted folder is a profile, else the first profile folder inside it. */
  function ProfileInside(dir: string, out: Node): Option<string>
  {
    if Analyze(dir, Some(out)).isChromeProfile then None else FirstProfileDir(Walk(dir, out))
  }

  /** A nested archive that was extracted: its directory and the profile folder found inside it, if any. */
  datatype Unpacked = Unpacked(dir: string, profileDir: Option<string>)

  /** How one candidate goes, with the path it came from and the name its session gets. */
  datatype Attempted = Attempted(path: string, name: string, result: Result<Unpacked, FailReason>)

  function Attempt(env: Env, tempDir: string, c: Candidate): Attempted
  {
    var dir := SessionDir(tempDir, c);
    var u := Unpack(env, tempDir, c);
    Attempted(c.path, SessionName(c), if u.Err? then Err(u.error) else Ok(Unpacked(dir, ProfileInside(dir, u.value))))
  }

  /** The attempts of `cands`, in order. */
  function Attempts(env: Env, tempDir: string, cands: seq<Candidate>): (r: seq<Attempted>)
    ensures |r| == |cands|
  {
    if cands == [] then []
    else Attempts(env, tempDir, cands[..|cands| - 1]) + [Attempt(env, tempDir, cands[|cands| - 1])]
  }

  /** The accumulators of the loop: `sessions`, `failed_archives` and the progress emitted so far. */
  datatype LoopState = LoopState(sessions: seq<Session>, failed: seq<Failure>, progress: seq<int>)

  /**
   * One iteration, for the `i`-th of `total` candidates: a failure is
   * recorded and the loop goes on; a success appends the session, points
   * the first session of that name at the profile folder found inside,
   * and emits progress.
   */
  function Step(total: nat, i: nat, st: LoopState, a: Attempted): LoopState
    requires i < total
  {
    match a.result
    case Err(why) => st.(failed := st.failed + [Failure(a.path, why)])
    case Ok(u) =>
      var added := st.sessions + [Session(a.name, u.dir)];
      var sessions := if u.profileDir.Some? then RedirectFirst(added, a.name, u.profileDir.value) else added;
      LoopState(sessions, st.failed, st.progress + [Percent(i, total)])
  }

  /** The state after the iterations over `ats`, the first attempts of `total`. */
  function Fold(total: nat, ats: seq<Attempted>): LoopState
    requires |ats| <= total
  {
    if ats == [] then LoopState([], [], [])
    else Step(total, |ats| - 1, Fold(total, ats[..|ats| - 1]), ats[|ats| - 1])
  }

  /** The state at the end of the loop over `cands`. */
  function Nested(env: Env, tempDir: string, cands: seq<Candidate>): LoopState
  {
    Fold(|cands|, Attempts(env, tempDir, cands))
  }

  method SessionProfile(dir: string, out: Node) returns (p: Option<string>)
    ensures p == ProfileInside(dir, out)
  {
    p := None;
    if !Analyze(dir, Some(out)).isChromeProfile {
      p := FindProfileDir(Walk(dir, out));
    }
  }

  /** `os.makedirs(session_dir)`, the extraction into it and the search for the profile folder inside. */
  method AttemptOne(env: Env, tempDir: string, c: Candidate) returns (a: Attempted)
    ensures a == Attempt(env, tempDir, c)
  {
    var name := Stem(Basename(c.path));
    var dir := Join(tempDir, name);
    if !env.makeDir(dir) {
      return Attempted(c.path, name, Err(MakeDirFailed));
    }
    var r := Outcome(Some(c.file), env.toolFound, env.runs(c.path));
    if r.Err? {
      return Attempted(c.path, name, Err(ExtractFailed(r.error)));
    }
    var found := SessionProfile(dir, r.value);
    a := Attempted(c.path, name, Ok(Unpacked(dir, found)));
  }

  /**
   * The loop over the nested archives: a failure is recorded and the loop
   * goes on; a success appends the session, points the first session of
   * that name at the profile folder found inside, and emits progress.
   */
  method ExtractNested(env: Env, tempDir: string, cands: seq<Candidate>) returns (st: LoopState)
    ensures st == Nested(env, tempDir, cands)
  {
    var sessions: seq<Session> := [];
    var failed: seq<Failure> := [];
    var progress: seq<int> := [];
    for i := 0 to |cands|
      invariant LoopState(sessions, failed, progress) == Fold(|cands|, Attempts(env, tempDir, cands[..i]))
    {
      var a := AttemptOne(env, tempDir, cands[i]);
      AttemptsSnoc(env, tempDir, cands, i);
      FoldSnoc(|cands|, Attempts(env, tempDir, cands[..i]), a);
      sessions, failed, progress := Record(|cands|, i, sessions, failed, progress, a);
    }
    assert cands[..|cands|] == cands;
    st := LoopState(sessions, failed, progress);
  }

  lemma AttemptsSnoc(env: Env, tempDir: string, cands: seq<Candidate>, i: nat)
    requires i < |cands|
    ensures Attempts(env, tempDir, cands[..i + 1]) == Attempts(env, tempDir, cands[..i]) + [Attempt(env, tempDir, cands[i])]
  {
    assert cands[..i + 1][..i] == cands[..i];
  }

  lemma FoldSnoc(total: nat, ats: seq<Attempted>, a: Attempted)
    requires |ats| < total
    ensures Fold(total, ats + [a]) == Step(total, |ats|, Fold(total, ats), a)
  {
    assert (ats + [a])[..|ats|] == ats;
  }

  /** The bookkeeping of one iteration of the loop. */
  method Record(total: nat, i: nat, sessions: seq<Session>, failed: seq<Failure>, progress: seq<int>, a: Attempted)
    returns (sessions': seq<Session>, failed': seq<Failure>, progress': seq<int>)
    requires i < total
    ensures LoopState(sessions', failed', progress') == Step(total, i, LoopState(sessions, failed, progress), a)
  {
    sessions', failed', progress' := sessions, failed, progress;
    if a.result.Err? {
      failed' := failed + [Failure(a.path, a.result.error)];
    } else {
      var u := a.result.value;
      sessions' := sessions + [Session(a.name, u.dir)];
      if u.profileDir.Some? {
        sessions' := Redirect(sessions', a.name, u.profileDir.value);
      }
      progress' := progress + [Percent(i, total)];
    }
  }

  /** The failures among the attempts, in order. */
  function Failures(ats: seq<Attempted>): seq<Failure>
  {
    if ats == [] then []
    else
      var a := ats[|ats| - 1];
      Failures(ats[..|ats| - 1]) + (if a.result.Err? then [Failure(a.path, a.result.error)] else [])
  }

  /** The session names of the successful attempts, in order. */
  function Succeeded(ats: seq<Attempted>): seq<string>
  {
    if ats == [] then []
    else
      var a := ats[|ats| - 1];
      Succeeded(ats[..|ats| - 1]) + (if a.result.Ok? then [a.name] else [])
  }

  function Names(sessions: seq<Session>): (r: seq<string>)
    ensures |r| == |sessions|
    ensures forall i :: 0 <= i < |sessions| ==> r[i] == sessions[i].name
  {
    if sessions == [] then [] else [sessions[0].name] + Names(sessions[1..])
  }

  /** Every attempt ends up in exactly one of the two lists. */
  lemma {:induction false} Partition(ats: seq<Attempted>)
    ensures |Failures(ats)| + |Succeeded(ats)| == |ats|
    decreases |ats|
  {
    if ats != [] {
      Partition(ats[..|ats| - 1]);
    }
  }

  /**
   * After `k` iterations the loop has recorded, in order, the failure of
   * every attempt that failed and one session for every other; a failure
   * does not stop the loop, and one progress value is emitted per session.
   */
  lemma {:induction false} FoldOutcome(total: nat, ats: seq<Attempted>)
    requires |ats| <= total
    ensures Fold(total, ats).failed == Failures(ats)
    ensures Names(Fold(total, ats).sessions) == Succeeded(ats)
    ensures |Fold(total, ats).progress| == |Fold(total, ats).sessions|
  {
    if ats != [] {
      FoldOutcome(total, ats[..|ats| - 1]);
      var prev := Fold(total, ats[..|ats| - 1]);
      var a := ats[|ats| - 1];
      if a.result.Ok? {
        var u := a.result.value;
        var added := prev.sessions + [Session(a.name, u.dir)];
        assert Names(added) == Names(prev.sessions) + [a.name];
        if u.profileDir.Some? {
          RedirectOnlyFirst(added, a.name, u.profileDir.value);
          assert Names(RedirectFirst(added, a.name, u.profileDir.value)) == Names(added);
        }
      }
    }
  }

  lemma MulCancel(d: nat, x: int, y: int)
    requires d * x < d * y
    ensures x < y
  {
  }

  /** A quotient is below `c` when the dividend is below `d * c`. */
  lemma DivBelow(n: nat, d: nat, c: int)
    requires d > 0 && n < d * c
    ensures n / d < c
  {
    var q := n / d;
    assert d * q <= n;
    MulCancel(d, q, c);
  }

  lemma DivExact(d: nat, c: nat)
    requires d > 0
    ensures d * c / d == c
  {
    var q := d * c / d;
    assert d * q <= d * c < d * (q + 1);
    assert d * (c + 1) == d * c + d;
    MulCancel(d, c, q + 1);
    MulCancel(d, q, c + 1);
  }

  lemma DivMonotone(a: nat, b: nat, d: nat)
    requires a <= b && d > 0
    ensures a / d <= b / d
  {
    var qb := b / d;
    assert b < d * (qb + 1);
    DivBelow(a, d, qb + 1);
  }

  /** 40 plus a share of 60: the loop's values lie in [40, 100], and 100 only comes with the last archive. */
  lemma PercentBounds(i: nat, total: nat)
    requires i < total
    ensures 40 <= Percent(i, total) <= 100
    ensures Percent(i, total) == 100 <==> i + 1 == total
  {
    DivBelow((i + 1) * 60, total, 61);
    if i + 1 < total {
      DivBelow((i + 1) * 60, total, 60);
    } else {
      DivExact(total, 60);
    }
  }

  lemma PercentMonotone(i: nat, j: nat, total: nat)
    requires i <= j < total
    ensures Percent(i, total) <= Percent(j, total)
  {
    DivMonotone((i + 1) * 60, (j + 1) * 60, total);
  }

  /** A sequence of percentages bounded by `lo` and `hi` and never decreasing. */
  predicate Ramp(ps: seq<int>, lo: int, hi: int)
  {
    (forall j :: 0 <= j < |ps| ==> lo <= ps[j] <= hi)
    && (forall j, l :: 0 <= j <= l < |ps| ==> ps[j] <= ps[l])
  }

  /** The loop's progress never decreases and stays between 40 and the value of its last iteration. */
  lemma {:induction false} FoldProgress(total: nat, ats: seq<Attempted>)
    requires |ats| <= total
    ensures Ramp(Fold(total, ats).progress, 40, if ats == [] then 40 else Percent(|ats| - 1, total))
  {
    var k := |ats|;
    if k > 0 {
      FoldProgress(total, ats[..k - 1]);
      PercentBounds(k - 1, total);
      if k > 1 {
        PercentMonotone(k - 2, k - 1, total);
      }
    }
  }

  /** The numbered report of the failures, numbered from 1. */
  function Numbered(failed: seq<Failure>): (r: seq<NumberedFailure>)
    ensures |r| == |failed|
    ensures forall i :: 0 <= i < |failed| ==> r[i] == NumberedFailure(i + 1, failed[i].path, failed[i].reason)
  {
    seq(|failed|, i requires 0 <= i < |failed| => NumberedFailure(i + 1, failed[i].path, failed[i].reason))
  }

  // ---------------------------------------------------------------------
  // The whole run

  /** The working root and what is there. */
  datatype Source = Source(dir: string, root: Node)

  /** The progress values of a run and its terminal signal. */
  datatype Report = Report(percents: seq<int>, terminal: Event)

  datatype Opened = Opened(percents: seq<int>, outcome: Result<Source, WorkerError>)

  /**
   * The first stage: an archive is checked and extracted into `tempDir`,
   * which becomes the working root; a folder is checked and used as it
   * is. `node` is what exists at `source`.
   */
  function Open(env: Env, source: string, node: Option<Node>, isArchive: bool, tempDir: string): (o: Opened)
  {
    if isArchive then
      if node.None? then Opened([5], Err(ArchiveNotFound))
      else if !node.value.readable then Opened([5], Err(ArchiveNotReadable))
      else if !node.value.File? then Opened([5], Err(NotAFile))
      else if !env.makeDir(Dirname(tempDir)) then Opened([5], Err(CannotCreateDir(Dirname(tempDir))))
      else if !env.makeDir(tempDir) then Opened([5], Err(CannotCreateDir(tempDir)))
      else
        var r := Outcome(Some(ArchiveFile(node.value.size, node.value.readable)), env.toolFound, env.runs(source));
        if r.Err? then Opened([5], Err(ExtractionError(r.error)))
        else Opened([5, 30], Ok(Source(tempDir, r.value)))
    else
      if node.None? then Opened([], Err(FolderNotFound))
      else if !node.value.Dir? then Opened([], Err(NotADirectory))
      else Opened([30], Ok(Source(source, node.value)))
  }

  /** How the loop's outcome is reported: finished when some session was found, an error otherwise. */
  function Finish(st: LoopState, name: string, source: string): Report
  {
    if st.sessions == [] then
      Report([40] + st.progress, Failed(if st.failed != [] then AllFailed(Numbered(st.failed)) else NoSessions))
    else
      Report([40] + st.progress + [100], Finished(st.sessions, name, source))
  }

  /** The second stage, on the working root. */
  function Discover(env: Env, source: string, src: Source, tempDir: string): Report
  {
    if Analyze(src.dir, Some(src.root)).isChromeProfile then
      Report([100], Finished([Session(Basename(src.dir), src.dir)], Basename(source), source))
    else
      Search(env, source, src.dir, Walk(src.dir, src.root), tempDir)
  }

  /** A root that is no profile: the nested archives found by the scan, or else the profile folders. */
  function Search(env: Env, source: string, dir: string, steps: seq<WalkStep>, tempDir: string): Report
  {
    var cands := Candidates(steps);
    if cands == [] then
      var profiles := Profiles(dir, steps);
      if profiles != [] then Report([40, 100], Finished(profiles, Basename(source), source))
      else Report([40], Failed(NothingFound))
    else
      Finish(Nested(env, tempDir, cands), Basename(source), source)
  }

  function Plan(env: Env, source: string, node: Option<Node>, isArchive: bool, tempDir: string): Report
  {
    var o := Open(env, source, node, isArchive, tempDir);
    if o.outcome.Err? then Report(o.percents, Failed(o.outcome.error))
    else
      var d := Discover(env, source, o.outcome.value, tempDir);
      Report(o.percents + d.percents, d.terminal)
  }

  function ProgressEvents(ps: seq<int>): (r: seq<Event>)
    ensures |r| == |ps|
    ensures forall i :: 0 <= i < |ps| ==> r[i] == Progress(ps[i])
  {
    seq(|ps|, i requires 0 <= i < |ps| => Progress(ps[i]))
  }

  function Events(r: Report): seq<Event>
  {
    ProgressEvents(r.percents) + [r.terminal]
  }

  /** The signals `ExtractionWorker.run` emits, in order. */
  function Run(env: Env, source: string, node: Option<Node>, isArchive: bool, tempDir: string): seq<Event>
  {
    Events(Plan(env, source, node, isArchive, tempDir))
  }

  /** The checks and the outer extraction at the start of `run`. */
  method OpenInput(env: Env, source: string, node: Option<Node>, isArchive: bool, tempDir: string)
    returns (o: Opened)
    ensures o == Open(env, source, node, isArchive, tempDir)
  {
    if isArchive {
      if node.None? {
        return Opened([5], Err(ArchiveNotFound));
      }
      var n := node.value;
      if !n.readable {
        return Opened([5], Err(ArchiveNotReadable));
      }
      if !n.File? {
        return Opened([5], Err(NotAFile));
      }
      var parent := Dirname(tempDir);
      if !env.makeDir(parent) {
        return Opened([5], Err(CannotCreateDir(parent)));
      }
      if !env.makeDir(tempDir) {
        return Opened([5], Err(CannotCreateDir(tempDir)));
      }
      var r := Outcome(Some(ArchiveFile(n.size, n.readable)), env.toolFound, env.runs(source));
      if r.Err? {
        return Opened([5], Err(ExtractionError(r.error)));
      }
      o := Opened([5, 30], Ok(Source(tempDir, r.value)));
    } else {
      if node.None? {
        return Opened([], Err(FolderNotFound));
      }
      if !node.value.Dir? {
        return Opened([], Err(NotADirectory));
      }
      o := Opened([30], Ok(Source(source, node.value)));
    }
  }

  /** The classification of the working root, the scan, and the nested extraction or the profile search. */
  method DiscoverIn(env: Env, source: string, src: Source, tempDir: string) returns (r: Report)
    ensures r == Discover(env, source, src, tempDir)
  {
    if Analyze(src.dir, Some(src.root)).isChromeProfile {
      return Report([100], Finished([Session(Basename(src.dir), src.dir)], Basename(source), source));
    }
    r := SearchIn(env, source, src.dir, Walk(src.dir, src.root), tempDir);
  }

  method SearchIn(env: Env, source: string, dir: string, steps: seq<WalkStep>, tempDir: string) returns (r: Report)
    ensures r == Search(env, source, dir, steps, tempDir)
  {
    var name := Basename(source);
    var cands := ScanCandidates(steps);
    if cands == [] {
      var profiles := SearchProfiles(dir, steps);
      if profiles != [] {
        return Report([40, 100], Finished(profiles, name, source));
      }
      return Report([40], Failed(NothingFound));
    }
    var st := ExtractNested(env, tempDir, cands);
    if st.sessions == [] {
      var err := if st.failed != [] then AllFailed(Numbered(st.failed)) else NoSessions;
      return Report([40] + st.progress, Failed(err));
    }
    r := Report([40] + st.progress + [100], Finished(st.sessions, name, source));
  }

  /** `ExtractionWorker.run`: the signals it emits, in order. */
  method RunWorker(env: Env, source: string, node: Option<Node>, isArchive: bool, tempDir: string)
    returns (events: seq<Event>)
    ensures events == Run(env, source, node, isArchive, tempDir)
  {
    var o := OpenInput(env, source, node, isArchive, tempDir);
    if o.outcome.Err? {
      return ProgressEvents(o.percents) + [Failed(o.outcome.error)];
    }
    var d := DiscoverIn(env, source, o.outcome.value, tempDir);
    events := ProgressEvents(o.percents + d.percents) + [d.terminal];
  }

  // ---------------------------------------------------------------------
  // Properties of a run

  predicate Terminal(e: Event)
  {
    e.Finished? || e.Failed?
  }

  /**
   * What the user interface can rely on: only progress before a single
   * terminal signal, percentages in [0, 100] that never go down, a
   * finished run announced by 100 and carrying at least one session, and
   * no 100 in a run that ends in an error.
   */
  predicate WellFormed(ev: seq<Event>)
  {
    && |ev| > 0
    && Terminal(ev[|ev| - 1])
    && (forall j :: 0 <= j < |ev| - 1 ==> ev[j].Progress? && 0 <= ev[j].percent <= 100)
    && (forall j, l :: 0 <= j <= l < |ev| - 1 ==> ev[j].percent <= ev[l].percent)
    && (ev[|ev| - 1].Finished? ==> |ev| >= 2 && ev[|ev| - 2] == Progress(100) && ev[|ev| - 1].sessions != [])
    && (ev[|ev| - 1].Failed? ==> Progress(100) !in ev)
  }

  predicate GoodReport(r: Report)
  {
    && Terminal(r.terminal)
    && Ramp(r.percents, 0, 100)
    && (r.terminal.Finished? ==> |r.percents| > 0 && r.percents[|r.percents| - 1] == 100 && r.terminal.sessions != [])
    && (r.terminal.Failed? ==> 100 !in r.percents)
  }

  lemma GoodReportEvents(r: Report)
    requires GoodReport(r)
    ensures WellFormed(Events(r))
  {
    var ev := Events(r);
    assert forall j :: 0 <= j < |ev| - 1 ==> ev[j] == Progress(r.percents[j]);
  }

  lemma RampAppend(a: seq<int>, b: seq<int>, lo: int, mid: int, hi: int)
    requires lo <= mid <= hi && Ramp(a, lo, mid) && Ramp(b, mid, hi)
    ensures Ramp(a + b, lo, hi)
  {
  }

  /** The loop's progress, when it ran at least once, lies in [40, 100] and has one value per session. */
  lemma NestedGood(env: Env, tempDir: string, cands: seq<Candidate>)
    requires cands != []
    ensures Ramp(Nested(env, tempDir, cands).progress, 40, 100)
    ensures |Nested(env, tempDir, cands).progress| == |Nested(env, tempDir, cands).sessions|
  {
    var ats := Attempts(env, tempDir, cands);
    FoldOutcome(|cands|, ats);
    FoldProgress(|cands|, ats);
    PercentBounds(|ats| - 1, |ats|);
  }

  lemma FinishGood(st: LoopState, name: string, source: string)
    requires Ramp(st.progress, 40, 100) && |st.progress| == |st.sessions|
    ensures GoodReport(Finish(st, name, source))
    ensures Ramp(Finish(st, name, source).percents, 40, 100)
  {
    RampAppend([40], st.progress, 40, 40, 100);
    RampAppend([40] + st.progress, [100], 40, 100, 100);
  }

  lemma SearchGood(env: Env, source: string, dir: string, steps: seq<WalkStep>, tempDir: string)
    ensures GoodReport(Search(env, source, dir, steps, tempDir))
    ensures Ramp(Search(env, source, dir, steps, tempDir).percents, 40, 100)
  {
    var cands := Candidates(steps);
    if cands == [] {
      ProfilesReportGood(Profiles(dir, steps), Basename(source), source);
    } else {
      NestedGood(env, tempDir, cands);
      FinishGood(Nested(env, tempDir, cands), Basename(source), source);
    }
  }

  lemma ProfilesReportGood(profiles: seq<Session>, name: string, source: string)
    ensures GoodReport(if profiles != [] then Report([40, 100], Finished(profiles, name, source))
                       else Report([40], Failed(NothingFound)))
    ensures Ramp(if profiles != [] then [40, 100] else [40], 40, 100)
  {
  }

  lemma DiscoverGood(env: Env, source: string, src: Source, tempDir: string)
    ensures GoodReport(Discover(env, source, src, tempDir))
    ensures Ramp(Discover(env, source, src, tempDir).percents, 40, 100)
  {
    if Analyze(src.dir, Some(src.root)).isChromeProfile {
      var r := Report([100], Finished([Session(Basename(src.dir), src.dir)], Basename(source), source));
      assert Discover(env, source, src, tempDir) == r;
      assert Ramp(r.percents, 40, 100);
    } else {
      SearchGood(env, source, src.dir, Walk(src.dir, src.root), tempDir);
      assert Discover(env, source, src, tempDir) == Search(env, source, src.dir, Walk(src.dir, src.root), tempDir);
    }
  }

  /** The first stage emits at most 5 and 30, in that order. */
  lemma OpenGood(env: Env, source: string, node: Option<Node>, isArchive: bool, tempDir: string)
    ensures Ramp(Open(env, source, node, isArchive, tempDir).percents, 0, 30)
  {
  }

  lemma PlanGood(env: Env, source: string, node: Option<Node>, isArchive: bool, tempDir: string)
    ensures GoodReport(Plan(env, source, node, isArchive, tempDir))
  {
    var o := Open(env, source, node, isArchive, tempDir);
    OpenGood(env, source, node, isArchive, tempDir);
    if o.outcome.Ok? {
      var d := Discover(env, source, o.outcome.value, tempDir);
      DiscoverGood(env, source, o.outcome.value, tempDir);
      RampAppend(o.percents, d.percents, 0, 40, 100);
      assert Plan(env, source, node, isArchive, tempDir) == Report(o.percents + d.percents, d.terminal);
    }
  }

  /** Every run emits a well-formed sequence of signals. */
  lemma RunWellFormed(env: Env, source: string, node: Option<Node>, isArchive: bool, tempDir: string)
    ensures WellFormed(Run(env, source, node, isArchive, tempDir))
  {
    PlanGood(env, source, node, isArchive, tempDir);
    GoodReportEvents(Plan(env, source, node, isArchive, tempDir));
  }

  /** With at least one attempt, the loop ends with a session or with a failure. */
  lemma SomeOutcome(ats: seq<Attempted>)
    requires ats != []
    ensures Fold(|ats|, ats).sessions == [] ==> Fold(|ats|, ats).failed != []
  {
    FoldOutcome(|ats|, ats);
    Partition(ats);
  }

  /** The generic "nothing could be extracted" error is never reported: the loop only runs on at least one candidate. */
  lemma NoGenericError(env: Env, source: string, node: Option<Node>, isArchive: bool, tempDir: string)
    ensures Failed(NoSessions) !in Run(env, source, node, isArchive, tempDir)
  {
    var o := Open(env, source, node, isArchive, tempDir);
    var ev := Run(env, source, node, isArchive, tempDir);
    RunWellFormed(env, source, node, isArchive, tempDir);
    if o.outcome.Ok? {
      var src := o.outcome.value;
      var steps := Walk(src.dir, src.root);
      var cands := Candidates(steps);
      if !Analyze(src.dir, Some(src.root)).isChromeProfile && cands != [] {
        SomeOutcome(Attempts(env, tempDir, cands));
      }
    }
    assert forall j :: 0 <= j < |ev| - 1 ==> ev[j].Progress?;
  }

  /** When every attempt fails, the failures are all the attempts, in order. */
  lemma {:induction false} AllFailuresListed(ats: seq<Attempted>)
    requires forall i :: 0 <= i < |ats| ==> ats[i].result.Err?
    ensures |Failures(ats)| == |ats|
    ensures forall i :: 0 <= i < |ats| ==> Failures(ats)[i] == Failure(ats[i].path, ats[i].result.error)
    decreases |ats|
  {
    if ats != [] {
      AllFailuresListed(ats[..|ats| - 1]);
    }
  }

  /**
   * When every nested archive fails, the error reports each of them in
   * candidate order, numbered from 1, with its path and its reason.
   */
  lemma AllFailedReport(ats: seq<Attempted>, name: string, source: string)
    requires ats != []
    requires forall i :: 0 <= i < |ats| ==> ats[i].result.Err?
    ensures var t := Finish(Fold(|ats|, ats), name, source).terminal;
            t.Failed? && t.error.AllFailed? && |t.error.report| == |ats|
            && forall i :: 0 <= i < |ats| ==> t.error.report[i] == NumberedFailure(i + 1, ats[i].path, ats[i].result.error)
  {
    FoldOutcome(|ats|, ats);
    AllFailuresListed(ats);
    Partition(ats);
  }

  /** One success is enough for a run to finish, however many others fail. */
  lemma {:induction false} SomeSucceeded(ats: seq<Attempted>, i: nat)
    requires i < |ats| && ats[i].result.Ok?
    ensures Succeeded(ats) != []
    decreases |ats|
  {
    if i < |ats| - 1 {
      SomeSucceeded(ats[..|ats| - 1], i);
    }
  }

  lemma OneSuccessFinishes(ats: seq<Attempted>, name: string, source: string, i: nat)
    requires i < |ats| && ats[i].result.Ok?
    ensures Finish(Fold(|ats|, ats), name, source).terminal.Finished?
  {
    FoldOutcome(|ats|, ats);
    SomeSucceeded(ats, i);
  }

  /**
   * A working root that is itself a profile gives one session, named
   * after the root and pointing at it, announced by 100 right after
   * opening: no scan and no nested extraction take place.
   */
  lemma RootProfileRun(env: Env, source: string, node: Option<Node>, isArchive: bool, tempDir: string)
    requires Open(env, source, node, isArchive, tempDir).outcome.Ok?
    requires var src := Open(env, source, node, isArchive, tempDir).outcome.value;
             Analyze(src.dir, Some(src.root)).isChromeProfile
    ensures var o := Open(env, source, node, isArchive, tempDir);
            var src := o.outcome.value;
            Run(env, source, node, isArchive, tempDir)
              == ProgressEvents(o.percents)
               + [Progress(100), Finished([Session(Basename(src.dir), src.dir)], Basename(source), source)]
  {
    var o := Open(env, source, node, isArchive, tempDir);
    PlanOfOpened(env, source, node, isArchive, tempDir);
    ProgressEventsAppend(o.percents, [100]);
  }

  /** Once the input is open, the plan is the opening's progress followed by the second stage's report. */
  lemma PlanOfOpened(env: Env, source: string, node: Option<Node>, isArchive: bool, tempDir: string)
    requires Open(env, source, node, isArchive, tempDir).outcome.Ok?
    ensures var o := Open(env, source, node, isArchive, tempDir);
            var d := Discover(env, source, o.outcome.value, tempDir);
            Plan(env, source, node, isArchive, tempDir) == Report(o.percents + d.percents, d.terminal)
  {
  }

  lemma ProgressEventsAppend(a: seq<int>, b: seq<int>)
    ensures ProgressEvents(a + b) == ProgressEvents(a) + ProgressEvents(b)
  {
  }

  /** A folder input opens with 30 and its own path as the working root. */
  lemma OpenFolder(env: Env, source: string, n: Node, tempDir: string)
    requires n.Dir?
    ensures Open(env, source, Some(n), false, tempDir) == Opened([30], Ok(Source(source, n)))
  {
  }

  /** A folder input that is itself a profile is reported as the one session, under its own path. */
  lemma FolderProfileRun(env: Env, source: string, n: Node, tempDir: string)
    requires n.Dir? && Analyze(source, Some(n)).isChromeProfile
    ensures Run(env, source, Some(n), false, tempDir)
         == [Progress(30), Progress(100), Finished([Session(Basename(source), source)], Basename(source), source)]
  {
    OpenFolder(env, source, n, tempDir);
    RootProfileRun(env, source, Some(n), false, tempDir);
  }
}
