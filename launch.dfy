/**
 * `open_sessions`: which sessions of the current archive are opened, and
 * the Chrome launches that follow. The launch itself (the command line,
 * `subprocess.Popen`, the pauses between launches) is not modelled; a
 * launch is the user-data directory it is given and whether it opens a
 * new window. What exists at a path is given as `fs`.
 */
module Launch {
  import opened Wrappers
  import opened Paths
  import opened FileSystem
  import opened Profile
  import opened Discovery
  import opened Catalog
  import opened Manager

  // ---------------------------------------------------------------------
  // The sessions to open

  /** For each name in order, the first session with that name, when there is one. */
  function Picked(sessions: seq<Session>, names: seq<string>): seq<Session>
    decreases |names|
  {
    if names == [] then []
    else
      var k := FirstNamed(sessions, names[|names| - 1]);
      Picked(sessions, names[..|names| - 1]) + (if k < 0 then [] else [sessions[k]])
  }

  /** The selected sessions, or every session when nothing is selected. */
  function OpeningSet(sessions: seq<Session>, selected: seq<string>): seq<Session>
  {
    if selected == [] then sessions else Picked(sessions, selected)
  }

  /**
   * Each session picked is the first session of the archive with one of
   * the selected names; each selected name that some session has yields
   * that first session; at most one session is picked per selected name,
   * and exactly one when every selected name exists.
   */
  lemma {:induction false} PickedMeans(sessions: seq<Session>, names: seq<string>)
    ensures var r := Picked(sessions, names);
            && |r| <= |names|
            && (forall i :: 0 <= i < |r| ==> r[i].name in names && FirstNamed(sessions, r[i].name) >= 0 && sessions[FirstNamed(sessions, r[i].name)] == r[i])
            && (forall i :: 0 <= i < |names| && FirstNamed(sessions, names[i]) >= 0 ==> sessions[FirstNamed(sessions, names[i])] in r)
            && ((forall i :: 0 <= i < |names| ==> FirstNamed(sessions, names[i]) >= 0) ==> |r| == |names|)
    decreases |names|
  {
    if names != [] {
      var init, last := names[..|names| - 1], names[|names| - 1];
      PickedMeans(sessions, init);
      var k := FirstNamed(sessions, last);
      var r0 := Picked(sessions, init);
      var r := Picked(sessions, names);
      assert r == r0 + (if k < 0 then [] else [sessions[k]]);
      assert forall i :: 0 <= i < |init| ==> init[i] == names[i];
      if k >= 0 {
        assert sessions[k].name == last;
        assert r[|r0|] == sessions[k];
      }
      forall i | 0 <= i < |names| && FirstNamed(sessions, names[i]) >= 0
        ensures sessions[FirstNamed(sessions, names[i])] in r
      {
        if i < |init| {
          assert sessions[FirstNamed(sessions, init[i])] in r0;
        } else {
          assert r[|r0|] == sessions[k];
        }
      }
    }
  }

  /** With nothing selected every session is opened, in list order. */
  lemma NothingSelectedOpensAll(sessions: seq<Session>)
    ensures OpeningSet(sessions, []) == sessions
  {
  }

  /** The loop over the selected items. */
  method SessionsToOpen(sessions: seq<Session>, selected: seq<string>) returns (r: seq<Session>)
    ensures r == OpeningSet(sessions, selected)
  {
    if selected == [] {
      return sessions;
    }
    r := [];
    var i := 0;
    while i < |selected|
      invariant 0 <= i <= |selected|
      invariant r == Picked(sessions, selected[..i])
    {
      var k := FindFirstNamed(sessions, selected[i]);
      if k >= 0 {
        r := r + [sessions[k]];
      }
      assert selected[..i + 1][..i] == selected[..i];
      i := i + 1;
    }
    assert selected[..|selected|] == selected;
  }

  // ---------------------------------------------------------------------
  // The user-data directory

  /**
   * `session_info['default_path'] if session_info['has_default_folder']
   * else session_path`, for what `fs` holds at `path`.
   */
  function LaunchDir(path: string, node: Option<Node>): string
  {
    var info := Analyze(path, node);
    AnalyzeMeans(path, node);
    if info.hasDefaultFolder then info.defaultPath.value else path
  }

  /**
   * Chrome is given the parent of a `Default` folder holding a marker
   * file, and the session folder itself in every other case, including a
   * folder that merely has a `Default` sub-folder.
   */
  lemma LaunchDirMeans(path: string, node: Option<Node>)
    ensures LaunchDir(path, node) == (if IsDefaultProfile(path, node) then Dirname(path) else path)
  {
    AnalyzeMeans(path, node);
  }

  /** A marked `Default` folder directly below a drive root launches Chrome on the root itself, `X:\\`. */
  lemma DefaultAtDriveRoot(drive: char, n: Node)
    requires ExistingDir(Some(n)) && HasMarker(n)
    ensures LaunchDir([drive, ':', Sep] + DefaultFolder, Some(n)) == [drive, ':', Sep]
  {
    var p := [drive, ':', Sep] + DefaultFolder;
    assert NoSep(DefaultFolder);
    DriveRootDirname(drive, DefaultFolder);
    assert IsDefaultProfile(p, Some(n));
    LaunchDirMeans(p, Some(n));
  }

  // ---------------------------------------------------------------------
  // The launches

  datatype Launch = Launch(userDataDir: string, newWindow: bool) | NotFound(path: string)

  datatype Opening = NoArchive | ArchiveIndexError | EmptyArchive | NoChrome | NothingToOpen | Launched(launches: seq<Launch>)

  /** A session after the first: launched when its folder exists, reported missing otherwise. */
  function LaterLaunch(s: Session, fs: string -> Option<Node>): Launch
  {
    if fs(s.path).Some? then Launch(LaunchDir(s.path, fs(s.path)), false) else NotFound(s.path)
  }

  function LaterLaunches(ss: seq<Session>, fs: string -> Option<Node>): seq<Launch>
    decreases |ss|
  {
    if ss == [] then [] else LaterLaunches(ss[..|ss| - 1], fs) + [LaterLaunch(ss[|ss| - 1], fs)]
  }

  /** The first session opens a new window without its folder being checked; the others follow. */
  function Launches(toOpen: seq<Session>, fs: string -> Option<Node>): seq<Launch>
    requires toOpen != []
  {
    [Launch(LaunchDir(toOpen[0].path, fs(toOpen[0].path)), true)] + LaterLaunches(toOpen[1..], fs)
  }

  /**
   * `open_sessions` for the catalog `s`, the names of the selected items
   * and whether the Chrome executable exists. An archive index beyond the
   * list raises `IndexError`, which the method's own handler reports.
   */
  function OpenPlan(s: Store, selected: seq<string>, chromeFound: bool, fs: string -> Option<Node>): Opening
  {
    if s.currentArchive < 0 then NoArchive
    else if s.currentArchive >= |s.archives| then ArchiveIndexError
    else
      var sessions := s.archives[s.currentArchive].sessions;
      if sessions == [] then EmptyArchive
      else if !chromeFound then NoChrome
      else
        var toOpen := OpeningSet(sessions, selected);
        if toOpen == [] then NothingToOpen else Launched(Launches(toOpen, fs))
  }

  /** One launch attempt per later session, each checked against what exists at its path. */
  lemma {:induction false} LaterLaunchesMeans(ss: seq<Session>, fs: string -> Option<Node>)
    ensures |LaterLaunches(ss, fs)| == |ss|
    ensures forall i :: 0 <= i < |ss| ==> LaterLaunches(ss, fs)[i] == LaterLaunch(ss[i], fs)
    decreases |ss|
  {
    if ss != [] {
      LaterLaunchesMeans(ss[..|ss| - 1], fs);
    }
  }

  /**
   * One launch per session to open: only the first opens a new window, it
   * is launched whether or not its folder exists, and a later session is
   * launched exactly when its folder exists, otherwise reported missing.
   */
  lemma LaunchesMeans(toOpen: seq<Session>, fs: string -> Option<Node>)
    requires toOpen != []
    ensures var l := Launches(toOpen, fs);
            && |l| == |toOpen|
            && l[0] == Launch(LaunchDir(toOpen[0].path, fs(toOpen[0].path)), true)
            && forall i :: 1 <= i < |toOpen| ==>
                 && (l[i].Launch? <==> fs(toOpen[i].path).Some?)
                 && (l[i].Launch? ==> l[i] == Launch(LaunchDir(toOpen[i].path, fs(toOpen[i].path)), false))
                 && (l[i].NotFound? ==> l[i].path == toOpen[i].path)
  {
    var l := Launches(toOpen, fs);
    var rest := LaterLaunches(toOpen[1..], fs);
    LaterLaunchesMeans(toOpen[1..], fs);
    assert l == [Launch(LaunchDir(toOpen[0].path, fs(toOpen[0].path)), true)] + rest;
    forall i | 1 <= i < |toOpen|
      ensures && (l[i].Launch? <==> fs(toOpen[i].path).Some?)
              && (l[i].Launch? ==> l[i] == Launch(LaunchDir(toOpen[i].path, fs(toOpen[i].path)), false))
              && (l[i].NotFound? ==> l[i].path == toOpen[i].path)
    {
      assert toOpen[1..][i - 1] == toOpen[i];
      assert l[i] == rest[i - 1] == LaterLaunch(toOpen[i], fs);
      LaterLaunchShape(toOpen[i], fs);
    }
  }

  /** A later session is launched exactly when its folder exists, and otherwise reported by its path. */
  lemma LaterLaunchShape(s: Session, fs: string -> Option<Node>)
    ensures var l := LaterLaunch(s, fs);
            && (l.Launch? <==> fs(s.path).Some?)
            && (l.Launch? ==> l == Launch(LaunchDir(s.path, fs(s.path)), false))
            && (l.NotFound? ==> l.path == s.path)
  {
  }

  /**
   * Chrome is started exactly when an archive is current, it has sessions,
   * Chrome exists and some session is to be opened; with nothing selected
   * that last condition always holds.
   */
  lemma OpenPlanRule(s: Store, selected: seq<string>, chromeFound: bool, fs: string -> Option<Node>)
    ensures var p := OpenPlan(s, selected, chromeFound, fs);
            && (p.Launched? <==>
                  && 0 <= s.currentArchive < |s.archives| && s.archives[s.currentArchive].sessions != []
                  && chromeFound && OpeningSet(s.archives[s.currentArchive].sessions, selected) != [])
            && (p.Launched? && selected == [] ==> |p.launches| == |s.archives[s.currentArchive].sessions|)
            && (Valid(s) ==> !p.ArchiveIndexError?)
  {
    var p := OpenPlan(s, selected, chromeFound, fs);
    if p.Launched? {
      LaunchesMeans(OpeningSet(s.archives[s.currentArchive].sessions, selected), fs);
    }
  }

  /** The loop over the sessions after the first. */
  method PlanLaunches(toOpen: seq<Session>, fs: string -> Option<Node>) returns (launches: seq<Launch>)
    requires toOpen != []
    ensures launches == Launches(toOpen, fs)
  {
    launches := [Launch(LaunchDir(toOpen[0].path, fs(toOpen[0].path)), true)];
    var rest := toOpen[1..];
    var i := 0;
    while i < |rest|
      invariant 0 <= i <= |rest|
      invariant launches == [Launch(LaunchDir(toOpen[0].path, fs(toOpen[0].path)), true)] + LaterLaunches(rest[..i], fs)
    {
      var s := rest[i];
      var node := fs(s.path);
      if node.Some? {
        launches := launches + [Launch(LaunchDir(s.path, node), false)];
      } else {
        launches := launches + [NotFound(s.path)];
      }
      assert rest[..i + 1][..i] == rest[..i];
      i := i + 1;
    }
    assert rest[..|rest|] == rest;
  }

  /** `open_sessions` on the catalog `s`. */
  method OpenSessions(s: Store, selected: seq<string>, chromeFound: bool, fs: string -> Option<Node>) returns (r: Opening)
    ensures r == OpenPlan(s, selected, chromeFound, fs)
  {
    if s.currentArchive < 0 {
      return NoArchive;
    }
    if s.currentArchive >= |s.archives| {
      return ArchiveIndexError;
    }
    var sessions := s.archives[s.currentArchive].sessions;
    if sessions == [] {
      return EmptyArchive;
    }
    if !chromeFound {
      return NoChrome;
    }
    var toOpen := SessionsToOpen(sessions, selected);
    if toOpen == [] {
      return NothingToOpen;
    }
    var launches := PlanLaunches(toOpen, fs);
    r := Launched(launches);
  }
}
