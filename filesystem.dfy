/**
 * The part of the file system the program looks at, as a value: a tree of
 * files and directories, looked up by name and walked the way `os.walk`
 * walks it (top-down, directories in listing order, unreadable directories
 * neither listed nor entered).
 */
module FileSystem {
  import opened Wrappers
  import opened Paths

  /**
   * A file with its size in bytes, or a directory with its entries in
   * listing order. `readable` is what `os.access(p, os.R_OK)` answers.
   */
  datatype Node = File(size: nat, readable: bool) | Dir(readable: bool, entries: seq<Entry>)

  datatype Entry = Entry(name: string, node: Node)

  /** The first entry called `name`, if any. */
  function Lookup(entries: seq<Entry>, name: string): (r: Option<Node>)
    ensures r.Some? <==> exists i :: 0 <= i < |entries| && entries[i].name == name
    ensures r.Some? ==> Entry(name, r.value) in entries
  {
    if entries == [] then None
    else if entries[0].name == name then Some(entries[0].node)
    else Lookup(entries[1..], name)
  }

  /** What is at `os.path.join(p, name)` when `n` is at `p`. */
  function Child(n: Node, name: string): (r: Option<Node>)
    ensures r.Some? ==> n.Dir? && Entry(name, r.value) in n.entries
    ensures n.Dir? && (exists i :: 0 <= i < |n.entries| && n.entries[i].name == name) ==> r.Some?
  {
    if n.Dir? then Lookup(n.entries, name) else None
  }

  /** `os.path.exists(os.path.join(p, name))` */
  predicate Has(n: Node, name: string)
  {
    Child(n, name).Some?
  }

  /** `os.path.isdir(os.path.join(p, name))` */
  predicate HasDir(n: Node, name: string)
  {
    Child(n, name).Some? && Child(n, name).value.Dir?
  }

  /** The directories among `entries`, in listing order (the `dirs` of an `os.walk` step). */
  function Dirs(entries: seq<Entry>): (r: seq<Entry>)
    ensures forall e :: e in r <==> e in entries && e.node.Dir?
  {
    if entries == [] then []
    else (if entries[0].node.Dir? then [entries[0]] else []) + Dirs(entries[1..])
  }

  /** The other entries, in listing order (the `files` of an `os.walk` step). */
  function Files(entries: seq<Entry>): (r: seq<Entry>)
    ensures forall e :: e in r <==> e in entries && e.node.File?
  {
    if entries == [] then []
    else (if entries[0].node.File? then [entries[0]] else []) + Files(entries[1..])
  }

  /** One step of `os.walk`: the directory path and the directory. */
  datatype WalkStep = WalkStep(root: string, node: Node)

  predicate Listable(n: Node)
  {
    n.Dir? && n.readable
  }

  /**
   * `os.walk(top)` with the default arguments: the top directory, then the
   * walk of each sub-directory in listing order. A directory that cannot
   * be listed yields nothing.
   */
  function Walk(top: string, n: Node): (r: seq<WalkStep>)
    ensures forall k :: 0 <= k < |r| ==> Listable(r[k].node)
    ensures Listable(n) ==> |r| > 0 && r[0] == WalkStep(top, n)
    ensures !Listable(n) ==> r == []
    decreases n, 1, 0
  {
    if Listable(n) then [WalkStep(top, n)] + WalkBelow(top, n, 0) else []
  }

  /** The walks of the sub-directories of `n` from its `i`-th entry on. */
  function WalkBelow(top: string, n: Node, i: nat): (r: seq<WalkStep>)
    requires n.Dir? && i <= |n.entries|
    ensures forall k :: 0 <= k < |r| ==> Listable(r[k].node)
    decreases n, 0, |n.entries| - i
  {
    if i == |n.entries| then []
    else
      var e := n.entries[i];
      (if e.node.Dir? then Walk(Join(top, e.name), e.node) else []) + WalkBelow(top, n, i + 1)
  }

  /** The walk of a directory with no sub-directories is that directory alone. */
  lemma {:induction false} WalkOfFlatDir(top: string, n: Node)
    requires Listable(n)
    requires forall i :: 0 <= i < |n.entries| ==> n.entries[i].node.File?
    ensures Walk(top, n) == [WalkStep(top, n)]
  {
    FlatBelow(top, n, 0);
  }

  lemma {:induction false} FlatBelow(top: string, n: Node, i: nat)
    requires n.Dir? && i <= |n.entries|
    requires forall k :: i <= k < |n.entries| ==> n.entries[k].node.File?
    ensures WalkBelow(top, n, i) == []
    decreases |n.entries| - i
  {
    if i < |n.entries| {
      FlatBelow(top, n, i + 1);
    }
  }
}
