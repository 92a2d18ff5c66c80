/**
 * Path strings as the Windows build of the program sees them (`ntpath`):
 * `\` and `/` both separate components, `os.path.join` inserts `\`.
 * Also the string tests the program applies to file names: case-folded
 * extension checks, `str.replace(pattern, '')` and the session-name test.
 */
module Paths {

  /** The separator `os.path.join` and `os.sep` use on Windows. */
  const Sep: char := '\\'

  predicate IsSep(c: char) { c == '\\' || c == '/' }

  /** A single path component: no separator anywhere in it. */
  predicate NoSep(s: string) { forall i :: 0 <= i < |s| ==> !IsSep(s[i]) }

  /** A file or folder name Windows accepts: no separator and no `:`. */
  predicate IsName(s: string) { NoSep(s) && forall i :: 0 <= i < |s| ==> s[i] != ':' }

  /** ASCII case folding (the model of `str.lower` on the names this program compares). */
  function LowerChar(c: char): char
  {
    if 'A' <= c <= 'Z' then (c as int - 'A' as int + 'a' as int) as char else c
  }

  function Lower(s: string): (r: string)
    ensures |r| == |s|
    ensures forall i :: 0 <= i < |s| ==> r[i] == LowerChar(s[i])
  {
    if s == [] then [] else [LowerChar(s[0])] + Lower(s[1..])
  }

  predicate StartsWith(s: string, prefix: string)
  {
    |prefix| <= |s| && s[..|prefix|] == prefix
  }

  predicate EndsWith(s: string, suffix: string)
  {
    |suffix| <= |s| && s[|s| - |suffix|..] == suffix
  }

  /** `pattern in s` */
  predicate Contains(s: string, pattern: string)
    decreases |s|
  {
    StartsWith(s, pattern) || (s != [] && Contains(s[1..], pattern))
  }

  /**
   * `s.replace(pattern, '')`: a left-to-right scan that deletes every
   * non-overlapping occurrence; an empty pattern leaves `s` as it is.
   */
  function RemoveAll(s: string, pattern: string): (r: string)
    ensures |r| <= |s|
    decreases |s|
  {
    if pattern == [] || |s| < |pattern| then s
    else if s[..|pattern|] == pattern then RemoveAll(s[|pattern|..], pattern)
    else [s[0]] + RemoveAll(s[1..], pattern)
  }

  /** `s.count(c)` for a one-character string `c`. */
  function CountChar(s: string, c: char): nat
  {
    if s == [] then 0 else (if s[0] == c then 1 else 0) + CountChar(s[1..], c)
  }

  /**
   * The length of the drive `ntpath.splitdrive` finds: 2 when the second
   * character is `:` (`X:`), 0 otherwise. UNC shares are not drives here.
   */
  function DriveLen(p: string): (r: nat)
    ensures r <= |p|
  {
    if |p| >= 2 && p[1] == ':' then 2 else 0
  }

  /** `head.rstrip('\\/')`: the head without its trailing separators. */
  function TrimSeps(h: string): (r: string)
    ensures StartsWith(h, r)
    ensures r == [] || !IsSep(r[|r| - 1])
    ensures forall i :: |r| <= i < |h| ==> IsSep(h[i])
  {
    if h != [] && IsSep(h[|h| - 1]) then TrimSeps(h[..|h| - 1]) else h
  }

  /**
   * `os.path.basename`: the characters after the drive and the last
   * separator, collected from the end.
   */
  function Basename(p: string): (r: string)
    ensures NoSep(r) && EndsWith(p, r)
    decreases |p|
  {
    if |p| > DriveLen(p) && !IsSep(p[|p| - 1]) then Basename(p[..|p| - 1]) + [p[|p| - 1]] else []
  }

  /**
   * `os.path.dirname`: the base name is dropped from the end; what is
   * left is the drive and a head whose trailing separators go, unless
   * the head is all separators (a root such as `X:\\` keeps its own).
   */
  function Dirname(p: string): (r: string)
    ensures StartsWith(p, r)
    decreases |p|
  {
    if |p| > DriveLen(p) && !IsSep(p[|p| - 1]) then Dirname(p[..|p| - 1])
    else
      var d := DriveLen(p);
      var trimmed := TrimSeps(p[d..]);
      assert p[..d] + p[d..] == p;
      p[..d] + (if trimmed == [] then p[d..] else trimmed)
  }

  /**
   * `os.path.join(a, b)` for a name `b`: a separator goes in unless `a` is
   * empty, ends with one, or is a bare drive (`X:` joins as `X:b`).
   */
  function Join(a: string, b: string): (r: string)
    ensures EndsWith(r, b) && StartsWith(r, a)
  {
    if a == [] || IsSep(a[|a| - 1]) || (|a| == 2 && a[1] == ':') then a + b else a + [Sep] + b
  }

  /** Index of the last `.` of a component, or -1. */
  function LastDot(name: string): (r: int)
    ensures -1 <= r < |name|
    ensures r >= 0 ==> name[r] == '.'
    ensures forall i :: r < i < |name| ==> name[i] != '.'
  {
    if name == [] then -1
    else if name[|name| - 1] == '.' then |name| - 1
    else LastDot(name[..|name| - 1])
  }

  /**
   * `os.path.splitext(name)[0]` for a component: cut at the last dot,
   * unless only dots precede it (".zip" has no extension).
   */
  function Stem(name: string): (r: string)
    ensures StartsWith(name, r)
  {
    var d := LastDot(name);
    if d > 0 && exists j :: 0 <= j < d && name[j] != '.' then name[..d] else name
  }

  /** `os.path.splitext(path)[1]`. */
  function Extension(path: string): (r: string)
    ensures EndsWith(path, r)
  {
    var b := Basename(path);
    b[|Stem(b)|..]
  }

  /** `s.lower().endswith(suffix)`, compared from the end one character at a time. */
  predicate EndsWithFolded(s: string, suffix: string)
    decreases |suffix|
  {
    |suffix| <= |s|
    && (suffix == []
        || (LowerChar(s[|s| - 1]) == suffix[|suffix| - 1] && EndsWithFolded(s[..|s| - 1], suffix[..|suffix| - 1])))
  }

  /** The archive test of the scans: `name.lower().endswith(('.zip', '.rar', '.7z'))`. */
  predicate IsArchiveName(name: string)
  {
    EndsWithFolded(name, ".zip") || EndsWithFolded(name, ".rar") || EndsWithFolded(name, ".7z")
  }

  /** `is_session_name`: the base name starts with `session-` or mentions `whatsapp` in any case. */
  predicate IsSessionName(filename: string)
  {
    var b := Basename(filename);
    StartsWith(b, "session-") || Contains(Lower(b), "whatsapp")
  }

  // ---------------------------------------------------------------------
  // Lemmas

  /** A path ending in a name character: both functions step over that character. */
  lemma NameStep(x: string)
    requires |x| > DriveLen(x) && !IsSep(x[|x| - 1])
    ensures Basename(x) == Basename(x[..|x| - 1]) + [x[|x| - 1]]
    ensures Dirname(x) == Dirname(x[..|x| - 1])
  {
  }

  /** A path ending in a separator or a drive: the base name is empty and the head is trimmed. */
  lemma RootStep(p: string)
    requires !(|p| > DriveLen(p) && !IsSep(p[|p| - 1]))
    ensures Basename(p) == []
    ensures var d := DriveLen(p);
            var t := TrimSeps(p[d..]);
            Dirname(p) == p[..d] + (if t == [] then p[d..] else t)
  {
  }

  /** Appending a character to a path that ends in a name keeps the drive before it. */
  lemma NameCharAppend(q: string, name: string)
    requires NoSep(name) && name != []
    requires |q| >= 2 || IsName(name)
    ensures var x := q + name;
            && |x| > DriveLen(x) && !IsSep(x[|x| - 1])
            && x[..|x| - 1] == q + name[..|name| - 1] && x[|x| - 1] == name[|name| - 1]
  {
    var x := q + name;
    var last := |name| - 1;
    assert x[|x| - 1] == name[last];
    assert !IsSep(name[last]);
    if |q| >= 2 {
      assert DriveLen(x) <= 2 < |x|;
    } else if |x| >= 2 {
      assert x[1] == name[1 - |q|];
      assert name[1 - |q|] != ':';
    }
    assert x[..|x| - 1] == q + name[..last];
  }

  /** After a path with an empty base name, a name is the whole base name. */
  lemma {:induction false} BasenameAppend(q: string, name: string)
    requires NoSep(name) && (|q| >= 2 || IsName(name))
    requires Basename(q) == []
    ensures Basename(q + name) == name
    decreases |name|
  {
    if name == [] {
      assert q + name == q;
    } else {
      var init := name[..|name| - 1];
      NameCharAppend(q, name);
      NameStep(q + name);
      BasenameAppend(q, init);
      assert init + [name[|name| - 1]] == name;
    }
  }

  /** Appending a name to such a path leaves its directory name unchanged. */
  lemma {:induction false} DirnameAppend(q: string, name: string)
    requires NoSep(name) && (|q| >= 2 || IsName(name))
    ensures Dirname(q + name) == Dirname(q)
    decreases |name|
  {
    if name == [] {
      assert q + name == q;
    } else {
      NameCharAppend(q, name);
      NameStep(q + name);
      DirnameAppend(q, name[..|name| - 1]);
    }
  }

  /** Joining a name and taking the base name gives the name back. */
  lemma BasenameOfJoin(dir: string, name: string)
    requires IsName(name)
    ensures Basename(Join(dir, name)) == name
  {
    if dir == [] || IsSep(dir[|dir| - 1]) || (|dir| == 2 && dir[1] == ':') {
      BasenameAppend(dir, name);
    } else {
      var q := dir + [Sep];
      assert Basename(q) == [];
      BasenameAppend(q, name);
      assert Join(dir, name) == q + name;
    }
  }

  /** Joining a name and taking the directory name gives the directory back. */
  lemma DirnameOfJoin(dir: string, name: string)
    requires dir != [] && !IsSep(dir[|dir| - 1])
    requires NoSep(name)
    ensures Dirname(Join(dir, name)) == dir
  {
    if |dir| == 2 && dir[1] == ':' {
      DirnameAppend(dir, name);
      assert dir[..2] == dir && dir[2..] == [];
    } else {
      var q := dir + [Sep];
      DirnameAppend(q, name);
      assert Join(dir, name) == q + name;
      DirnameOfSep(dir);
    }
  }

  /** A directory followed by one separator has that directory as its directory name. */
  lemma DirnameOfSep(dir: string)
    requires dir != [] && !IsSep(dir[|dir| - 1])
    requires !(|dir| == 2 && dir[1] == ':')
    ensures Dirname(dir + [Sep]) == dir
  {
    var q := dir + [Sep];
    assert q[|q| - 1] == Sep;
    RootStep(q);
    SepAfterDir(dir);
    var d := DriveLen(q);
    TrimOneSep(dir[d..]);
  }

  /** The drive of `dir\\` lies inside `dir`, and what follows it is the rest of `dir` and the separator. */
  lemma SepAfterDir(dir: string)
    requires dir != [] && !(|dir| == 2 && dir[1] == ':')
    ensures var q := dir + [Sep];
            var d := DriveLen(q);
            d < |dir| && q[..d] == dir[..d] && q[d..] == dir[d..] + [Sep] && dir[..d] + dir[d..] == dir
  {
    var q := dir + [Sep];
    if |dir| == 1 {
      assert q[1] == Sep;
    } else if |dir| == 2 {
      assert q[1] == dir[1];
    }
  }

  /** Trimming a head that ends in one separator after a last non-separator. */
  lemma TrimOneSep(x: string)
    requires x != [] && !IsSep(x[|x| - 1])
    ensures TrimSeps(x + [Sep]) == x
  {
    assert (x + [Sep])[..|x|] == x;
  }

  /** Directly below a drive root the directory keeps its separator: `dirname('X:\\name')` is `X:\\`. */
  lemma DriveRootDirname(drive: char, name: string)
    requires NoSep(name)
    ensures var p := [drive, ':', Sep] + name;
            Dirname(p) == [drive, ':', Sep] && Basename(p) == name
  {
    var q := [drive, ':', Sep];
    DirnameAppend(q, name);
    BasenameAppend(q, name);
    assert q[2..] == [Sep] && q[..2] + [Sep] == q;
  }

  /** A doubled separator before the last name goes whole: `dirname('a\\\\b')` is `a`. */
  lemma DoubledSeparatorDirname(dir: string, name: string)
    requires dir != [] && !IsSep(dir[|dir| - 1]) && !(|dir| == 2 && dir[1] == ':')
    requires NoSep(name)
    ensures Dirname(dir + [Sep, Sep] + name) == dir
  {
    var q := dir + [Sep, Sep];
    assert dir + [Sep, Sep] + name == q + name;
    DirnameAppend(q, name);
    assert q[|q| - 1] == Sep;
    RootStep(q);
    SepsAfterDir(dir);
    TrimTwoSeps(dir[DriveLen(q)..]);
  }

  /** The drive of `dir\\\\` lies inside `dir`, and the two separators follow the rest of `dir`. */
  lemma SepsAfterDir(dir: string)
    requires dir != [] && !(|dir| == 2 && dir[1] == ':')
    ensures var q := dir + [Sep, Sep];
            var d := DriveLen(q);
            d < |dir| && q[..d] == dir[..d] && q[d..] == dir[d..] + [Sep, Sep] && dir[..d] + dir[d..] == dir
  {
    var q := dir + [Sep, Sep];
    if |dir| == 1 {
      assert q[1] == Sep;
    } else if |dir| == 2 {
      assert q[1] == dir[1];
    }
  }

  /** Two trailing separators after a last name character are both trimmed. */
  lemma TrimTwoSeps(x: string)
    requires x != [] && !IsSep(x[|x| - 1])
    ensures TrimSeps(x + [Sep, Sep]) == x
  {
    assert (x + [Sep, Sep])[..|x| + 1] == x + [Sep];
    TrimOneSep(x);
  }

  /** `join('C:', 'b')` is `C:b`: a bare drive takes no separator. */
  lemma BareDriveJoin()
    ensures Join("C:", "b") == "C:b"
  {
  }

  /** `basename('C:D')` is `D`: the drive is never part of the base name. */
  lemma DriveNotInBasename()
    ensures Basename("C:D") == "D"
  {
    assert "C:D"[..2] == "C:";
    NameStep("C:D");
    RootStep("C:");
  }

  /** `dirname('\\')` is `\\`: a root is its own directory name. */
  lemma RootIsOwnDirname()
    ensures Dirname("\\") == "\\"
  {
    assert TrimSeps("\\") == [];
  }

  /** `is_session_name` looks at the last component only. */
  lemma SessionNameOfJoin(dir: string, name: string)
    requires IsName(name)
    ensures IsSessionName(Join(dir, name)) == IsSessionName(name)
  {
    BasenameOfJoin(dir, name);
    BasenameOfJoin([], name);
  }

  /** The character-wise test, written with an index. */
  lemma {:induction false} EndsWithFoldedAt(s: string, suffix: string)
    ensures EndsWithFolded(s, suffix)
        <==> |suffix| <= |s| && forall k :: 0 <= k < |suffix| ==> LowerChar(s[|s| - |suffix| + k]) == suffix[k]
    decreases |suffix|
  {
    if suffix != [] && |suffix| <= |s| {
      var s', x' := s[..|s| - 1], suffix[..|suffix| - 1];
      EndsWithFoldedAt(s', x');
      assert forall k :: 0 <= k < |x'| ==> s'[|s'| - |x'| + k] == s[|s| - |suffix| + k] && x'[k] == suffix[k];
    }
  }

  /** The suffix test, written with an index. */
  lemma EndsWithAt(t: string, suffix: string)
    requires |suffix| <= |t|
    ensures EndsWith(t, suffix) <==> forall k :: 0 <= k < |suffix| ==> t[|t| - |suffix| + k] == suffix[k]
  {
    var u := t[|t| - |suffix|..];
    assert forall k :: 0 <= k < |suffix| ==> u[k] == t[|t| - |suffix| + k];
  }

  /** The character-wise test is the suffix test on the lower-cased string. */
  lemma EndsWithFoldedIsLowerEndsWith(s: string, suffix: string)
    ensures EndsWithFolded(s, suffix) <==> EndsWith(Lower(s), suffix)
  {
    EndsWithFoldedAt(s, suffix);
    var l := Lower(s);
    if |suffix| <= |s| {
      EndsWithAt(l, suffix);
      FoldedIsPointwise(s, l, suffix);
    }
  }

  /** Comparing folded characters of `s` is comparing the characters of its folded copy `l`. */
  lemma FoldedIsPointwise(s: string, l: string, suffix: string)
    requires |l| == |s| && forall i :: 0 <= i < |s| ==> l[i] == LowerChar(s[i])
    requires |suffix| <= |s|
    ensures (forall k :: 0 <= k < |suffix| ==> LowerChar(s[|s| - |suffix| + k]) == suffix[k])
        <==> (forall k :: 0 <= k < |suffix| ==> l[|l| - |suffix| + k] == suffix[k])
  {
  }

  /** A string without the pattern is left alone by `replace`. */
  lemma {:induction false} RemoveAllAbsent(s: string, pattern: string)
    requires !Contains(s, pattern)
    ensures RemoveAll(s, pattern) == s
    decreases |s|
  {
    if pattern != [] && |pattern| <= |s| {
      assert s[..|pattern|] != pattern;
      RemoveAllAbsent(s[1..], pattern);
      assert s == [s[0]] + s[1..];
    }
  }

  /**
   * Removing `\name` from `prefix\name` leaves `prefix` when the prefix
   * does not itself contain `\name`: the separator that starts the
   * pattern cannot occur inside the component.
   */
  lemma {:induction false} RemoveTrailingSegment(prefix: string, name: string)
    requires NoSep(name)
    requires !Contains(prefix, [Sep] + name)
    ensures RemoveAll(prefix + [Sep] + name, [Sep] + name) == prefix
    decreases |prefix|
  {
    var pat := [Sep] + name;
    var s := prefix + pat;
    assert s == prefix + [Sep] + name;
    if prefix == [] {
      assert s[..|pat|] == pat;
      assert s[|pat|..] == [];
    } else {
      NoMatchAtStart(prefix, name);
      assert !Contains(prefix[1..], pat);
      RemoveTrailingSegment(prefix[1..], name);
      assert s[1..] == prefix[1..] + [Sep] + name;
      assert s == [prefix[0]] + s[1..];
    }
  }

  /** A non-empty prefix without `\name` does not start `prefix\name` with it. */
  lemma NoMatchAtStart(prefix: string, name: string)
    requires NoSep(name) && prefix != []
    requires !Contains(prefix, [Sep] + name)
    ensures (prefix + [Sep] + name)[..|name| + 1] != [Sep] + name
  {
    var pat := [Sep] + name;
    var s := prefix + pat;
    assert s == prefix + [Sep] + name;
    if |prefix| >= |pat| {
      assert prefix[..|pat|] == s[..|pat|];
    } else {
      var k := |prefix|;
      assert s[k] == Sep;
      assert pat[k] == name[k - 1];
      assert s[..|pat|][k] != pat[k];
    }
  }

  /** The stem of `base.ext` is `base` when `ext` is one dot-led extension. */
  lemma StemOfArchiveName(base: string, ext: string)
    requires 2 <= |ext| && ext[0] == '.'
    requires forall i :: 1 <= i < |ext| ==> ext[i] != '.'
    requires exists j :: 0 <= j < |base| && base[j] != '.'
    ensures Stem(base + ext) == base
  {
    var name := base + ext;
    assert forall i :: |base| < i < |name| ==> name[i] == ext[i - |base|];
    assert name[|base|] == '.';
    assert LastDot(name) == |base|;
    var j :| 0 <= j < |base| && base[j] != '.';
    assert name[j] == base[j];
    assert name[..|base|] == base;
  }

  /** A pattern longer than the string cannot occur in it. */
  lemma {:induction false} ContainsNeedsRoom(s: string, pattern: string)
    requires Contains(s, pattern)
    ensures |pattern| <= |s|
    decreases |s|
  {
    if !StartsWith(s, pattern) {
      ContainsNeedsRoom(s[1..], pattern);
    }
  }

  /** A single name is its own base name. */
  lemma BasenameOfComponent(p: string)
    requires IsName(p)
    ensures Basename(p) == p
  {
    BasenameAppend([], p);
    assert [] + p == p;
  }

  lemma StartsWithPrefix(prefix: string, rest: string)
    ensures StartsWith(prefix + rest, prefix)
  {
    assert (prefix + rest)[..|prefix|] == prefix;
  }

  lemma ContainsItself(s: string)
    ensures Contains(s, s)
  {
    assert s[..|s|] == s;
  }

  /** A base name with the `session-` prefix is a session name. */
  lemma SessionPrefixExample()
    ensures IsSessionName("session-42")
  {
    var p := "session-42";
    assert IsName(p);
    BasenameOfComponent(p);
    StartsWithPrefix("session-", "42");
    assert "session-" + "42" == p;
  }

  /** `whatsapp` is found whatever its case. */
  lemma WhatsAppExample()
    ensures IsSessionName("WhatsApp")
  {
    var p := "WhatsApp";
    assert IsName(p);
    BasenameOfComponent(p);
    LowerWhatsApp();
    ContainsItself("whatsapp");
  }

  lemma LowerWhatsApp()
    ensures Lower("WhatsApp") == "whatsapp"
  {
    var l := Lower("WhatsApp");
    assert l[0] == 'w' && l[5] == 'a';
  }

  /** A profile folder name such as `Default` is not a session name. */
  lemma DefaultIsNotSessionName()
    ensures !IsSessionName("Default")
  {
    assert IsName("Default");
    BasenameOfComponent("Default");
    var d := Lower("Default");
    assert |d| < |"whatsapp"|;
    if Contains(d, "whatsapp") {
      ContainsNeedsRoom(d, "whatsapp");
    }
  }
}
