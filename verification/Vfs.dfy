/** The tree of vnodes of src/fs_vfs.c over tmpfs (src/fs_tmpfs.c), as functions on values. */
module Vfs {
  import opened Sequences
  import opened Path
  import opened Errors

  const MAX_FILE_NAME: nat := 64
  const MAX_CHILDREN: nat := 16
  const ROOT: nat := 0
  const NONE: int := -1

  datatype Result<T> = Ok(value: T) | Err(code: int)

  /** A vnode with its tmpfs node. Vnodes are numbered in the order of their allocation;
      `mount` is the root of the file system mounted here and `NONE` stands for NULL. */
  datatype Vnode = Vnode(name: string, isDir: bool, parent: int, mount: int, parentIsMount: bool, children: seq<nat>)

  /** All vnodes; the root of the root file system is number 0. */
  datatype Tree = Tree(nodes: seq<Vnode>)
  {
    predicate Has(v: int) { 0 <= v < |nodes| }

    function Parent(v: int): int { if Has(v) then nodes[v].parent else NONE }

    function MountRoot(v: int): int { if Has(v) then nodes[v].mount else NONE }
  }

  // ----- Lookup

  /** The position in `cs` of the first child called `name`, or |cs|. */
  function FindChild(t: Tree, cs: seq<nat>, name: string): (i: nat)
    ensures i <= |cs|
    ensures i < |cs| && t.Has(cs[i]) ==> t.nodes[cs[i]].name == name
    ensures forall j :: 0 <= j < i && t.Has(cs[j]) ==> t.nodes[cs[j]].name != name
  {
    if cs == [] then 0
    else if t.Has(cs[0]) && t.nodes[cs[0]].name == name then 0
    else 1 + FindChild(t, cs[1..], name)
  }

  /** tmpfs_lookup. */
  function TmpfsLookup(t: Tree, d: nat, name: string): Result<nat>
    requires t.Has(d)
  {
    if !t.nodes[d].isDir then Err(EACCES)
    else
      var i := FindChild(t, t.nodes[d].children, name);
      if i == |t.nodes[d].children| then Err(ENOENT) else Ok(t.nodes[d].children[i])
  }

  /** The vnode that stands in for `v` when something is mounted on it. */
  function Cross(t: Tree, v: nat): nat {
    if t.MountRoot(v) >= 0 then t.MountRoot(v) else v
  }

  /** One ".." of the lookup loop. */
  function DotDot(t: Tree, v: nat): Result<nat> {
    if v == ROOT then Ok(v)
    else if t.Parent(v) < 0 then Err(EINTERR)
    else
      var p := t.Parent(v);
      if t.MountRoot(p) == v then
        if p == ROOT then Ok(ROOT)
        else if t.Parent(p) >= 0 then Ok(t.Parent(p))
        else Err(EINTERR)
      else Ok(p)
  }

  predicate Ordinary(c: string) {
    c != "." && c != ".."
  }

  /** One round of the lookup loop. */
  function Step(t: Tree, v: nat, c: string): Result<nat> {
    if c == "." then Ok(v)
    else if c == ".." then DotDot(t, v)
    else if !t.Has(Cross(t, v)) then Err(EINTERR)
    else
      match TmpfsLookup(t, Cross(t, v), c)
      case Err(e) => Err(e)
      case Ok(x) => Ok(Cross(t, x))
  }

  function Walk(t: Tree, v: nat, cs: seq<string>): Result<nat>
    decreases |cs|
  {
    if cs == [] then Ok(v)
    else
      match Step(t, v, cs[0])
      case Err(e) => Err(e)
      case Ok(w) => Walk(t, w, cs[1..])
  }

  predicate Absolute(path: string) {
    path != "" && path[0] == SLASH
  }

  /** vfs_lookup, with its special cases; `cwd` is NONE when the task has none. */
  function Lookup(t: Tree, cwd: int, path: string): Result<nat> {
    if !Absolute(path) && cwd < 0 then Err(EINTERR)
    else
      var start: nat := if Absolute(path) then ROOT else cwd;
      if path == [SLASH] then Ok(ROOT)
      else if path == "" || path == "." then Ok(start)
      else Walk(t, start, Components(path))
  }

  // ----- mkdir, create and mount

  /** The index of the last slash, or -1. */
  function LastSlash(path: string): (i: int)
    ensures -1 <= i < |path|
    ensures i >= 0 ==> path[i] == SLASH
    ensures forall j :: i < j < |path| ==> path[j] != SLASH
  {
    if path == "" then -1
    else if path[|path| - 1] == SLASH then |path| - 1
    else LastSlash(path[..|path| - 1])
  }

  /** The directory in which a node is to be made. Without a working directory mkdir fails,
      while the create path of vfs_open falls back to the root. */
  function ParentOf(t: Tree, cwd: int, path: string, isDir: bool): Result<nat> {
    var i := LastSlash(path);
    if i == -1 then
      if cwd >= 0 then Ok(cwd) else if isDir then Err(EINTERR) else Ok(ROOT)
    else if i == 0 then Lookup(t, cwd, [SLASH])
    else Lookup(t, cwd, path[..i])
  }

  function BaseName(path: string): string {
    path[LastSlash(path) + 1..]
  }

  /** Why tmpfs_create_or_mkdir refuses, or 0; `memory` is whether its allocations succeed. */
  function Refusal(t: Tree, d: nat, name: string, memory: bool): int
    requires t.Has(d)
  {
    if name == "" then EINVAL
    else if !t.nodes[d].isDir then EACCES
    else if |name| >= MAX_FILE_NAME then EINVAL
    else if FindChild(t, t.nodes[d].children, name) < |t.nodes[d].children| then EEXIST
    else if |t.nodes[d].children| >= MAX_CHILDREN then ENOMEM
    else if !memory then ENOMEM
    else 0
  }

  /** The tree with a new node as the last child of `d`; it inherits the mount field of `d`. */
  function WithChild(t: Tree, d: nat, name: string, isDir: bool): Tree
    requires t.Has(d)
  {
    var n := |t.nodes|;
    var grown := t.nodes[d := t.nodes[d].(children := t.nodes[d].children + [n])];
    Tree(grown + [Vnode(name, isDir, d, t.nodes[d].mount, false, [])])
  }

  /** vfs_mkdir (`isDir`), or the create path of vfs_open: the tree and 0 or an error. */
  function Make(t: Tree, cwd: int, path: string, isDir: bool, memory: bool): (Tree, int) {
    match ParentOf(t, cwd, path, isDir)
    case Err(e) => (t, e)
    case Ok(d) =>
      if !t.Has(d) then (t, EINTERR)
      else
        var e := Refusal(t, d, BaseName(path), memory);
        if e != 0 then (t, e) else (WithChild(t, d, BaseName(path), isDir), 0)
  }

  /** The tree with a fresh tmpfs mounted on `v`. */
  function WithMount(t: Tree, v: nat): Tree
    requires t.Has(v)
  {
    var n := |t.nodes|;
    Tree(t.nodes[v := t.nodes[v].(mount := n)] + [Vnode([SLASH], true, v, NONE, true, [])])
  }

  /** vfs_mount of a tmpfs. */
  function Mount(t: Tree, cwd: int, path: string, memory: bool): (Tree, int) {
    match Lookup(t, cwd, path)
    case Err(e) => (t, e)
    case Ok(v) =>
      if !t.Has(v) then (t, EINTERR)
      else if t.nodes[v].mount != NONE || t.nodes[v].parentIsMount then (t, EBUSY)
      else if !memory then (t, ENOMEM)
      else (WithMount(t, v), 0)
  }

  /** vfs_init up to the mount of the root file system. */
  const INITIAL: Tree := Tree([Vnode([SLASH], true, NONE, NONE, true, [])])

  // ----- Invariant

  /** Node `c` at position `i` of directory `d` is the child it should be. */
  ghost predicate ChildOk(t: Tree, d: nat, i: nat)
    requires t.Has(d) && i < |t.nodes[d].children|
  {
    var c := t.nodes[d].children[i];
    d < c < |t.nodes| && t.nodes[c].parent == d && !t.nodes[c].parentIsMount
  }

  ghost predicate UniqueNames(t: Tree, cs: seq<nat>) {
    forall i, j {:trigger cs[i], cs[j]} :: 0 <= i < j < |cs| && t.Has(cs[i]) && t.Has(cs[j]) ==>
      t.nodes[cs[i]].name != t.nodes[cs[j]].name
  }

  ghost predicate NodeOk(t: Tree, v: nat)
    requires t.Has(v)
  {
    var n := t.nodes[v];
    && (if v == ROOT then n.parent == NONE && n.parentIsMount && n.mount == NONE && n.isDir else 0 <= n.parent < v)
    && (!n.isDir ==> n.children == [])
    && |n.children| <= MAX_CHILDREN
    && (forall i: nat {:trigger ChildOk(t, v, i)} :: i < |n.children| ==> ChildOk(t, v, i))
    && UniqueNames(t, n.children)
    && (n.mount != NONE ==> MountOk(t, v) || Inert(t, v))
    && (v != ROOT && n.parentIsMount ==> t.MountRoot(n.parent) == v)
    && (v != ROOT && !n.parentIsMount ==> t.Has(n.parent) && v in t.nodes[n.parent].children)
  }

  /** A mount root is a fresh directory, points back, and is never itself mounted on. */
  ghost predicate MountOk(t: Tree, v: nat)
    requires t.Has(v)
  {
    var r := t.nodes[v].mount;
    && v < r < |t.nodes| && v != ROOT && !t.nodes[v].parentIsMount
    && t.nodes[r].parent == v && t.nodes[r].parentIsMount && t.nodes[r].mount == NONE && t.nodes[r].isDir
  }

  /** A node made in a directory after something was mounted there: it carries a copy of the
      directory's mount field, and no lookup ever finds it. */
  ghost predicate Inert(t: Tree, v: nat)
    requires t.Has(v)
  {
    var n := t.nodes[v];
    && v != ROOT && t.Has(n.parent) && t.Has(n.mount) && n.mount == t.nodes[n.parent].mount
    && t.nodes[n.mount].parent == n.parent && t.nodes[n.mount].parentIsMount
    && !n.parentIsMount && n.children == []
  }

  /** What a lookup can return, and hence what can be a working directory. */
  ghost predicate Usable(t: Tree, v: int) {
    t.Has(v) && !Inert(t, v)
  }

  ghost predicate Wf(t: Tree) {
    |t.nodes| > 0 && forall v: nat {:trigger NodeOk(t, v)} :: v < |t.nodes| ==> NodeOk(t, v)
  }
}
