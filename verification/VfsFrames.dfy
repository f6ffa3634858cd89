/** What mkdir, create and mount change, and what they leave alone. */
module VfsFrames {
  import opened Sequences
  import opened Errors
  import opened Path
  import opened Vfs
  import opened VfsLaws

  // ----- mkdir and create

  lemma {:induction false} FindChildSame(t: Tree, u: Tree, cs: seq<nat>, name: string)
    requires forall c :: c in cs ==> t.Has(c) && u.Has(c) && t.nodes[c].name == u.nodes[c].name
    ensures FindChild(t, cs, name) == FindChild(u, cs, name)
  {
    if cs != [] {
      assert cs[0] in cs;
      FindChildSame(t, u, cs[1..], name);
    }
  }

  lemma {:induction false} FindChildAppend(t: Tree, cs: seq<nat>, c: nat, name: string)
    requires t.Has(c)
    ensures FindChild(t, cs + [c], name) ==
      if FindChild(t, cs, name) < |cs| || t.nodes[c].name == name then FindChild(t, cs, name) else |cs| + 1
  {
    if cs != [] {
      assert (cs + [c])[1..] == cs[1..] + [c];
      FindChildAppend(t, cs[1..], c, name);
    }
  }

  /** The new node is a proper child, names stay unique, and nothing else changes. In a directory
      that something is mounted on, the new node is inert. */
  lemma WithChildWf(t: Tree, d: nat, name: string, isDir: bool)
    requires Wf(t) && Usable(t, d) && Refusal(t, d, name, true) == 0
    ensures Wf(WithChild(t, d, name, isDir))
  {
    var u, n := WithChild(t, d, name, isDir), |t.nodes|;
    forall v: nat | v < |u.nodes| ensures NodeOk(u, v) {
      if v < n {
        assert NodeOk(t, v);
        ChildrenExist(t, v);
        forall i: nat | i < |u.nodes[v].children| ensures ChildOk(u, v, i) {
          if i < |t.nodes[v].children| { assert ChildOk(t, v, i); }
        }
        if v != ROOT && !t.nodes[v].parentIsMount { ListedKept(t, u, d, t.nodes[v].parent, v); }
        NamesStayUnique(t, u, d, v);
      } else {
        assert u.nodes[d].children[|t.nodes[d].children|] == n;
        NewNodeMount(t, d, name, isDir);
      }
    }
  }

  lemma NewNodeMount(t: Tree, d: nat, name: string, isDir: bool)
    requires Wf(t) && Usable(t, d)
    ensures var u := WithChild(t, d, name, isDir);
      u.Has(|t.nodes|) && (u.nodes[|t.nodes|].mount != NONE ==> Inert(u, |t.nodes|))
  {
    CrossUsable(t, d);
  }

  lemma ListedKept(t: Tree, u: Tree, d: nat, p: int, v: nat)
    requires t.Has(p) && t.Has(d) && v in t.nodes[p].children
    requires |u.nodes| == |t.nodes| + 1 && u.nodes[d].children == t.nodes[d].children + [|t.nodes|]
    requires p != d ==> u.nodes[p].children == t.nodes[p].children
    ensures v in u.nodes[p].children
  {
  }

  lemma NamesStayUnique(t: Tree, u: Tree, d: nat, v: nat)
    requires Wf(t) && t.Has(d) && t.Has(v)
    requires exists name, isDir :: Refusal(t, d, name, true) == 0 && u == WithChild(t, d, name, isDir)
    ensures UniqueNames(u, u.nodes[v].children)
  {
    assert NodeOk(t, v);
    ChildrenExist(t, v);
    var cs, ds := t.nodes[v].children, u.nodes[v].children;
    forall i, j | 0 <= i < j < |ds| && u.Has(ds[i]) && u.Has(ds[j]) ensures u.nodes[ds[i]].name != u.nodes[ds[j]].name {
      assert ds[i] == cs[i] && cs[i] in cs;
      if j < |cs| { assert cs[j] in cs; }
    }
  }

  /** The walk from `v` looks up `name` in directory `d`. */
  ghost predicate Uses(t: Tree, v: nat, cs: seq<string>, d: nat, name: string)
    decreases |cs|
  {
    cs != [] &&
    ((Ordinary(cs[0]) && Cross(t, v) == d && cs[0] == name) ||
     (Step(t, v, cs[0]).Ok? && Uses(t, Step(t, v, cs[0]).value, cs[1..], d, name)))
  }

  /** What remains of the walk after it first looked up `name` in `d`. */
  ghost function AfterUse(t: Tree, v: nat, cs: seq<string>, d: nat, name: string): seq<string>
    requires Uses(t, v, cs, d, name)
    decreases |cs|
  {
    if Ordinary(cs[0]) && Cross(t, v) == d && cs[0] == name then cs[1..]
    else AfterUse(t, Step(t, v, cs[0]).value, cs[1..], d, name)
  }

  lemma TmpfsLookupAfterChild(t: Tree, d: nat, name: string, isDir: bool, v: nat, c: string)
    requires Wf(t) && t.Has(v) && t.Has(d) && Refusal(t, d, name, true) == 0
    ensures TmpfsLookup(WithChild(t, d, name, isDir), v, c) ==
      if v == d && c == name then Ok(|t.nodes|) else TmpfsLookup(t, v, c)
    ensures v == d && c == name ==> TmpfsLookup(t, v, c) == Err(ENOENT)
  {
    var u := WithChild(t, d, name, isDir);
    ChildrenExist(t, v);
    hide Wf;
    FindChildSame(t, u, t.nodes[v].children, c);
    if v == d { FindChildAppend(u, t.nodes[d].children, |t.nodes|, c); }
  }

  /** Vnodes keep their parents and mounts. */
  lemma FieldsAfterChild(t: Tree, d: nat, name: string, isDir: bool, v: nat)
    requires Wf(t) && t.Has(v) && t.Has(d)
    ensures var u := WithChild(t, d, name, isDir);
      Cross(u, v) == Cross(t, v) && t.Has(Cross(t, v)) && DotDot(u, v) == DotDot(t, v)
    ensures t.nodes[d].mount == NONE ==> Cross(WithChild(t, d, name, isDir), |t.nodes|) == |t.nodes|
  {
    assert NodeOk(t, v);
    if v != ROOT { ParentUsable(t, v); }
  }

  lemma StepAfterChild(t: Tree, d: nat, name: string, isDir: bool, v: nat, c: string)
    requires Wf(t) && Usable(t, v) && Usable(t, d) && Refusal(t, d, name, true) == 0
    ensures var u := WithChild(t, d, name, isDir);
      Step(u, v, c) == if Ordinary(c) && Cross(t, v) == d && c == name then Ok(|t.nodes|) else Step(t, v, c)
    ensures Ordinary(c) && Cross(t, v) == d && c == name ==> Step(t, v, c) == Err(ENOENT)
  {
    var u, e := WithChild(t, d, name, isDir), Cross(t, v);
    FieldsAfterChild(t, d, name, isDir, v);
    CrossUsable(t, v);
    if Ordinary(c) {
      TmpfsLookupAfterChild(t, d, name, isDir, e, c);
      LookupChild(t, e, c);
      ChildrenExist(t, e);
      var r := TmpfsLookup(t, e, c);
      if r.Ok? { FieldsAfterChild(t, d, name, isDir, r.value); }
    }
    hide Wf, Refusal, TmpfsLookup, DotDot, Cross, WithChild;
  }

  /** Adding `name` to `d`, exactly: a walk that does not look it up there ends as before; a walk
      that does was not successful before, and goes on from the new node now. */
  lemma {:induction false} WalkAfterChild(t: Tree, d: nat, name: string, isDir: bool, v: nat, cs: seq<string>)
    requires Wf(t) && Usable(t, v) && Usable(t, d) && Refusal(t, d, name, true) == 0
    ensures var u := WithChild(t, d, name, isDir);
      && (!Uses(t, v, cs, d, name) ==> Walk(u, v, cs) == Walk(t, v, cs))
      && (Uses(t, v, cs, d, name) ==> Walk(t, v, cs) == Err(ENOENT))
      && (Uses(t, v, cs, d, name) ==> Walk(u, v, cs) == Walk(u, |t.nodes|, AfterUse(t, v, cs, d, name)))
    decreases |cs|
  {
    hide Wf, Usable, Step, Refusal, WithChild;
    if cs != [] {
      StepAfterChild(t, d, name, isDir, v, cs[0]);
      StepUsable(t, v, cs[0]);
      if Step(t, v, cs[0]).Ok? { WalkAfterChild(t, d, name, isDir, Step(t, v, cs[0]).value, cs[1..]); }
    }
  }

  lemma LookupAfterChild(t: Tree, d: nat, name: string, isDir: bool, cwd: int, path: string)
    requires Wf(t) && Usable(t, d) && Refusal(t, d, name, true) == 0
    requires (Absolute(path) || (cwd >= 0 && Usable(t, cwd))) && Lookup(t, cwd, path).Ok?
    ensures Lookup(WithChild(t, d, name, isDir), cwd, path) == Lookup(t, cwd, path)
  {
    RootVisible(t);
    VisibleUsable(t, ROOT);
    hide Wf, Step, Refusal, WithChild, Components, Usable;
    LookupIsWalk(t, cwd, path);
    LookupIsWalk(WithChild(t, d, name, isDir), cwd, path);
    WalkAfterChild(t, d, name, isDir, if Absolute(path) then ROOT else cwd, Components(path));
  }

  lemma BaseIsWord(path: string)
    requires BaseName(path) != ""
    ensures IsWord(BaseName(path)) && (Absolute(path) ==> LastSlash(path) >= 0)
    ensures LastSlash(path) >= 0 ==> path == path[..LastSlash(path)] + [SLASH] + BaseName(path)
    ensures LastSlash(path) == -1 ==> path == BaseName(path)
  {
    if Absolute(path) { assert path[0] == SLASH; }
  }

  /** The starting point of `path` is the root, a working directory that an earlier lookup gave,
      or missing. */
  ghost predicate Starts(t: Tree, cwd: int, path: string) {
    Absolute(path) || cwd < 0 || Usable(t, cwd)
  }

  lemma StartSafe(t: Tree, cwd: int, path: string)
    requires Wf(t) && Starts(t, cwd, path)
    ensures Lookup(t, cwd, path).Ok? ==> Usable(t, Lookup(t, cwd, path).value)
    ensures Lookup(t, cwd, path).Err? ==> Lookup(t, cwd, path).code < 0
  {
    if Absolute(path) || cwd >= 0 { LookupSafe(t, cwd, path); }
  }

  lemma StartsExists(t: Tree, cwd: int, path: string)
    requires Starts(t, cwd, path)
    ensures Exists(t, cwd, path)
  {
  }

  /** The directory part of a path that has one. */
  function DirName(path: string): string {
    if LastSlash(path) > 0 then path[..LastSlash(path)] else [SLASH]
  }

  /** The parent directory, when it exists, is usable. */
  lemma ParentFound(t: Tree, cwd: int, path: string, isDir: bool)
    requires Wf(t) && Starts(t, cwd, path)
    ensures ParentOf(t, cwd, path, isDir).Ok? ==> Usable(t, ParentOf(t, cwd, path, isDir).value)
    ensures ParentOf(t, cwd, path, isDir).Err? ==> ParentOf(t, cwd, path, isDir).code < 0
    ensures LastSlash(path) >= 0 ==> ParentOf(t, cwd, path, isDir) == Lookup(t, cwd, DirName(path))
  {
    RootVisible(t);
    VisibleUsable(t, ROOT);
    hide Wf, Components, Usable;
    var i := LastSlash(path);
    if i >= 0 {
      assert i > 0 ==> DirName(path)[0] == path[0];
      StartSafe(t, cwd, DirName(path));
    }
  }

  lemma MakeKeepsWf(t: Tree, cwd: int, path: string, isDir: bool, memory: bool)
    requires Wf(t) && Starts(t, cwd, path)
    ensures Wf(Make(t, cwd, path, isDir, memory).0)
    ensures Make(t, cwd, path, isDir, memory).1 != 0 ==> Make(t, cwd, path, isDir, memory).0 == t
  {
    ParentFound(t, cwd, path, isDir);
    var r := ParentOf(t, cwd, path, isDir);
    if r.Ok? && Refusal(t, r.value, BaseName(path), memory) == 0 {
      WithChildWf(t, r.value, BaseName(path), isDir);
    }
  }

  /** A successful mkdir or create of an ordinary name. Every path that resolved before, from the
      root or from any usable directory, resolves to the same vnode. The new path leads to the
      new node exactly when its parent directory is not itself a mount point; it can be one only
      for a relative path, from a working directory that was covered meanwhile. */
  lemma MakeFrame(t: Tree, cwd: int, path: string, isDir: bool, memory: bool)
    requires Wf(t) && (Absolute(path) || (cwd >= 0 && Usable(t, cwd)))
    requires Ordinary(BaseName(path)) && Make(t, cwd, path, isDir, memory).1 == 0
    ensures var u := Make(t, cwd, path, isDir, memory).0; var d := ParentOf(t, cwd, path, isDir);
      && Wf(u) && |u.nodes| == |t.nodes| + 1
      && u.nodes[|t.nodes|].name == BaseName(path) && u.nodes[|t.nodes|].isDir == isDir && u.nodes[|t.nodes|].children == []
      && d.Ok? && t.Has(d.value)
      && (Lookup(u, cwd, path) == Ok(|t.nodes|) <==> t.nodes[d.value].mount == NONE)
      && (t.nodes[d.value].mount == NONE ==> Lookup(t, cwd, path) == Err(ENOENT))
      && (Absolute(path) ==> t.nodes[d.value].mount == NONE)
      && (forall c, q :: Resolves(t, c, q) ==> Lookup(u, c, q) == Lookup(t, c, q))
  {
    hide Wf, Step, Components, WithChild, Lookup, Usable, Visible, Refusal, BaseName, LastSlash, DirName, ParentOf, Make;
    MakeSucceeds(t, cwd, path, isDir, memory);
    var d, name := ParentOf(t, cwd, path, isDir).value, BaseName(path);
    var u := WithChild(t, d, name, isDir);
    WithChildWf(t, d, name, isDir);
    NewNode(t, d, name, isDir);
    NotFoundElsewhere(t, d, name, isDir);
    LookupBase(t, cwd, path, isDir);
    forall c, q | Resolves(t, c, q) ensures Lookup(u, c, q) == Lookup(t, c, q) {
      LookupAfterChild(t, d, name, isDir, c, q);
    }
    LookupBaseAfter(t, u, cwd, path, isDir);
  }

  /** What a successful mkdir or create has found. */
  lemma MakeSucceeds(t: Tree, cwd: int, path: string, isDir: bool, memory: bool)
    requires Wf(t) && Starts(t, cwd, path) && Make(t, cwd, path, isDir, memory).1 == 0
    ensures var d := ParentOf(t, cwd, path, isDir);
      && d.Ok? && Usable(t, d.value) && t.Has(d.value) && BaseName(path) != ""
      && Refusal(t, d.value, BaseName(path), true) == 0
      && Make(t, cwd, path, isDir, memory).0 == WithChild(t, d.value, BaseName(path), isDir)
      && (Absolute(path) ==> t.nodes[d.value].mount == NONE)
  {
    hide Wf, Lookup, LastSlash, ParentOf, WithChild, DirName, Starts, BaseName;
    ParentFound(t, cwd, path, isDir);
    ParentUncovered(t, cwd, path, isDir);
  }

  /** `q` resolves from the root or from the usable directory `c`. */
  ghost predicate Resolves(t: Tree, c: int, q: string) {
    (Absolute(q) || (c >= 0 && Usable(t, c))) && Lookup(t, c, q).Ok?
  }

  /** The directory part of an absolute path never leads to a mount point. */
  lemma ParentUncovered(t: Tree, cwd: int, path: string, isDir: bool)
    requires Wf(t) && ParentOf(t, cwd, path, isDir).Ok?
    ensures Absolute(path) ==> Visible(t, ParentOf(t, cwd, path, isDir).value)
  {
    if Absolute(path) {
      assert path[0] == SLASH;
      assert LastSlash(path) >= 0;
      assert LastSlash(path) > 0 ==> DirName(path)[0] == path[0];
      ParentFound(t, cwd, path, isDir);
      LookupSafe(t, cwd, DirName(path));
    }
  }

  /** The new node is what a step from `d` finds, unless `d` is a mount point. */
  lemma NotFoundElsewhere(t: Tree, d: nat, name: string, isDir: bool)
    requires Wf(t) && Usable(t, d) && Refusal(t, d, name, true) == 0 && Ordinary(name)
    ensures Step(WithChild(t, d, name, isDir), d, name) == Ok(|t.nodes|) <==> t.nodes[d].mount == NONE
    ensures t.nodes[d].mount == NONE ==> Step(t, d, name) == Err(ENOENT)
  {
    StepAfterChild(t, d, name, isDir, d, name);
    StepUsable(t, d, name);
    CrossUsable(t, d);
  }

  lemma NewNode(t: Tree, d: nat, name: string, isDir: bool)
    requires t.Has(d)
    ensures var u := WithChild(t, d, name, isDir);
      |u.nodes| == |t.nodes| + 1 && var n := u.nodes[|t.nodes|];
      n.name == name && n.isDir == isDir && n.children == []
  {
  }

  /** A path resolves by one step, for its last name, from its parent directory. */
  lemma LookupBase(t: Tree, cwd: int, path: string, isDir: bool)
    requires (Absolute(path) || cwd >= 0) && BaseName(path) != "" && ParentOf(t, cwd, path, isDir).Ok?
    ensures Lookup(t, cwd, path) == Step(t, ParentOf(t, cwd, path, isDir).value, BaseName(path))
  {
    hide Step, Components;
    BaseIsWord(path);
    var i, name, d := LastSlash(path), BaseName(path), ParentOf(t, cwd, path, isDir).value;
    if i > 0 {
      LookupComposes(t, cwd, path[..i], name);
      LookupOneWord(t, d, name);
    } else if i == 0 {
      assert path == [SLASH] + name;
      LeadingSlash(name);
      ComponentsOfWord(name);
      LookupIsWalk(t, cwd, path);
      OneStep(t, ROOT, name);
    } else {
      LookupOneWord(t, cwd, name);
    }
  }

  lemma OneStep(t: Tree, v: nat, name: string)
    ensures Walk(t, v, [name]) == Step(t, v, name)
  {
    hide Step;
    assert [name][1..] == [];
    assert Walk(t, v, [name]) == match Step(t, v, name) case Err(e) => Err(e) case Ok(x) => Walk(t, x, [name][1..]);
  }

  /** After the directory part resolves as before, so does the rest, by one step. */
  lemma LookupBaseAfter(t: Tree, u: Tree, cwd: int, path: string, isDir: bool)
    requires (Absolute(path) || (cwd >= 0 && Usable(t, cwd))) && BaseName(path) != "" && ParentOf(t, cwd, path, isDir).Ok?
    requires forall c, q :: Resolves(t, c, q) ==> Lookup(u, c, q) == Lookup(t, c, q)
    ensures Lookup(u, cwd, path) == Step(u, ParentOf(t, cwd, path, isDir).value, BaseName(path))
  {
    hide Lookup, Step, Usable, BaseName, LastSlash;
    if LastSlash(path) >= 0 {
      assert LastSlash(path) > 0 ==> path[..LastSlash(path)][0] == path[0];
      assert Resolves(t, cwd, DirName(path));
    }
    LookupBase(u, cwd, path, isDir);
  }

  /** What goes wrong in a covered directory: once a file system is mounted on the vnode `v`, a
      thread that still has `v` as its working directory makes `name` there with success, and
      does not find it. */
  lemma CoveredDirectoryHides(t: Tree, v: nat, name: string)
    requires Wf(t) && Mountable(t, v)
    requires IsWord(name) && Ordinary(name) && Refusal(t, v, name, true) == 0
    ensures var m := WithMount(t, v); var (u, code) := Make(m, v, name, true, true);
      code == 0 && Lookup(u, v, name) == Err(ENOENT)
  {
    WithMountWf(t, v);
    var m := WithMount(t, v);
    SameRefusal(t, v, name);
    assert LastSlash(name) == -1 && BaseName(name) == name;
    MountedUsable(t, v);
    StepAfterChild(m, v, name, true, v, name);
    CrossUsable(m, v);
    NewRootIsEmpty(t, v, name);
    LookupOneWord(WithChild(m, v, name, true), v, name);
  }

  lemma SameRefusal(t: Tree, v: nat, name: string)
    requires Wf(t) && t.Has(v)
    ensures Refusal(WithMount(t, v), v, name, true) == Refusal(t, v, name, true)
  {
    ChildrenExist(t, v);
    FindChildSame(t, WithMount(t, v), t.nodes[v].children, name);
  }

  lemma MountedUsable(t: Tree, v: nat)
    requires Wf(t) && Mountable(t, v)
    ensures Usable(WithMount(t, v), v)
  {
    assert NodeOk(t, v);
  }

  // ----- mount

  lemma NamesFrame(t: Tree, u: Tree, cs: seq<nat>)
    requires UniqueNames(t, cs)
    requires forall c :: c in cs ==> t.Has(c) && u.Has(c) && u.nodes[c].name == t.nodes[c].name
    ensures UniqueNames(u, cs)
  {
    forall i, j | 0 <= i < j < |cs| && u.Has(cs[i]) && u.Has(cs[j]) ensures u.nodes[cs[i]].name != u.nodes[cs[j]].name {
      assert cs[i] in cs && cs[j] in cs;
    }
  }

  lemma WithMountWf(t: Tree, v: nat)
    requires Wf(t) && Mountable(t, v)
    ensures Wf(WithMount(t, v))
  {
    var u, n := WithMount(t, v), |t.nodes|;
    assert NodeOk(t, ROOT) && v != ROOT;
    forall w: nat | w < |u.nodes| ensures NodeOk(u, w) {
      if w < n {
        assert NodeOk(t, w);
        forall i: nat | i < |u.nodes[w].children| ensures ChildOk(u, w, i) {
          assert ChildOk(t, w, i);
        }
        ChildrenExist(t, w);
        NamesFrame(t, u, t.nodes[w].children);
        if w != ROOT { assert NodeOk(t, t.nodes[w].parent); }
      }
    }
  }

  /** The walk from `v` looks up an ordinary name inside `target`. */
  ghost predicate LooksIn(t: Tree, v: nat, cs: seq<string>, target: nat)
    decreases |cs|
  {
    cs != [] &&
    ((Ordinary(cs[0]) && v == target) ||
     (Step(t, v, cs[0]).Ok? && LooksIn(t, Step(t, v, cs[0]).value, cs[1..], target)))
  }

  /** `v` lies strictly below `target`. */
  ghost predicate Under(t: Tree, v: nat, target: nat)
    decreases v
  {
    v != ROOT && 0 <= Up(t, v) < v && (Up(t, v) == target || Under(t, Up(t, v), target))
  }

  /** Nothing is mounted on `target`, and it is no mount root itself. */
  predicate Mountable(t: Tree, target: int) {
    t.Has(target) && t.nodes[target].mount == NONE && !t.nodes[target].parentIsMount
  }

  /** What a vnode becomes once a file system is mounted on `target`. */
  function Covered(t: Tree, target: nat, v: nat): nat {
    if v == target then |t.nodes| else v
  }

  function CoveredResult(t: Tree, target: nat, r: Result<nat>): Result<nat> {
    match r
    case Err(e) => Err(e)
    case Ok(v) => Ok(Covered(t, target, v))
  }

  lemma DotDotAfterMount(t: Tree, target: nat, v: nat)
    requires Wf(t) && Mountable(t, target)
    requires Visible(t, v) && !Under(t, v, target)
    ensures DotDot(WithMount(t, target), Covered(t, target, v)) == CoveredResult(t, target, DotDot(t, v))
  {
    var u, n := WithMount(t, target), |t.nodes|;
    VisibleDotDot(t, v);
    assert NodeOk(t, v) && NodeOk(t, ROOT) && target != ROOT;
    if v != ROOT {
      assert NodeOk(t, t.nodes[v].parent);
      assert Up(t, v) != target;
    }
  }

  lemma LookupAfterMount(t: Tree, target: nat, v: nat, c: string)
    requires Wf(t) && Mountable(t, target)
    requires Visible(t, v) && v != target && Ordinary(c)
    ensures Step(WithMount(t, target), v, c) == CoveredResult(t, target, Step(t, v, c))
  {
    var u := WithMount(t, target);
    ChildrenExist(t, v);
    FindChildSame(t, u, t.nodes[v].children, c);
    LookupChild(t, v, c);
    var r := TmpfsLookup(t, v, c);
    assert TmpfsLookup(u, v, c) == r;
    if r.Ok? { CrossedIsNotTarget(t, target, v, r.value); }
  }

  /** If a child is crossed into a mounted root, that root is not the new mount's target. */
  lemma CrossedIsNotTarget(t: Tree, target: nat, v: nat, c: nat)
    requires Wf(t) && Visible(t, v) && c in t.nodes[v].children
    requires Mountable(t, target)
    ensures t.Has(c) && (c != target ==> Cross(t, c) != target) && (c == target ==> Cross(t, c) == c)
    ensures Cross(WithMount(t, target), c) == Covered(t, target, Cross(t, c))
  {
    ChildrenExist(t, v);
    assert NodeOk(t, c);
  }

  lemma StepAfterMount(t: Tree, target: nat, v: nat, c: string)
    requires Wf(t) && Mountable(t, target)
    requires Visible(t, v) && !Under(t, v, target) && !(Ordinary(c) && v == target)
    ensures Step(WithMount(t, target), Covered(t, target, v), c) == CoveredResult(t, target, Step(t, v, c))
    ensures Step(t, v, c).Ok? ==> !Under(t, Step(t, v, c).value, target)
  {
    if Ordinary(c) {
      LookupAfterMount(t, target, v, c);
      StaysOutside(t, target, v, c);
    } else {
      DotDotAfterMount(t, target, v);
      VisibleDotDot(t, v);
    }
  }

  /** A name looked up outside the target does not lead below it. */
  lemma StaysOutside(t: Tree, target: nat, v: nat, c: string)
    requires Wf(t) && Visible(t, v) && !Under(t, v, target) && v != target && Ordinary(c)
    ensures Step(t, v, c).Ok? ==> !Under(t, Step(t, v, c).value, target)
  {
    LookupChild(t, v, c);
    var r := TmpfsLookup(t, v, c);
    if r.Ok? { CrossedChildVisible(t, v, r.value); }
  }

  /** Walks that never look inside the target end where they ended, the target itself being
      replaced by the new root. */
  lemma {:induction false} WalkAfterMount(t: Tree, target: nat, v: nat, cs: seq<string>)
    requires Wf(t) && Mountable(t, target)
    requires Visible(t, v) && !Under(t, v, target) && !LooksIn(t, v, cs, target)
    ensures Walk(WithMount(t, target), Covered(t, target, v), cs) == CoveredResult(t, target, Walk(t, v, cs))
    decreases |cs|
  {
    hide Wf, Visible, Step, Under, WithMount;
    if cs != [] {
      StepAfterMount(t, target, v, cs[0]);
      StepVisible(t, v, cs[0]);
      if Step(t, v, cs[0]).Ok? { WalkAfterMount(t, target, Step(t, v, cs[0]).value, cs[1..]); }
    }
  }

  /** `u` is `t` with a file system mounted on the uncovered vnode that `path` leads to. */
  ghost predicate MountedOn(t: Tree, cwd: int, path: string, u: Tree) {
    var r := Lookup(t, cwd, path);
    r.Ok? && Mountable(t, r.value) && u == WithMount(t, r.value)
  }

  lemma MountKeepsWf(t: Tree, cwd: int, path: string, memory: bool)
    requires Wf(t) && Exists(t, cwd, path)
    ensures Wf(Mount(t, cwd, path, memory).0)
    ensures Mount(t, cwd, path, memory).1 != 0 ==> Mount(t, cwd, path, memory).0 == t
    ensures Mount(t, cwd, path, memory).1 == 0 ==> MountedOn(t, cwd, path, Mount(t, cwd, path, memory).0)
  {
    LookupExists(t, cwd, path);
    var r := Lookup(t, cwd, path);
    if r.Ok? && Mountable(t, r.value) { WithMountWf(t, r.value); }
  }

  /** The mount frame, for the walk `cs` of any absolute path that never looks up a name inside
      the target: it ends on the new, empty root if it ended on the target, and exactly as
      before otherwise; and no name is found below the new root. */
  lemma MountFrame(t: Tree, cwd: int, path: string, memory: bool, q: string, x: string)
    requires Wf(t) && Exists(t, cwd, path) && Mount(t, cwd, path, memory).1 == 0
    requires Absolute(q) && Lookup(t, cwd, path).Ok? && !LooksIn(t, ROOT, Components(q), Lookup(t, cwd, path).value)
    requires IsWord(x) && Ordinary(x)
    ensures var v := Lookup(t, cwd, path).value; var u := Mount(t, cwd, path, memory).0;
      && u == WithMount(t, v)
      && Lookup(u, cwd, q) == (if Lookup(t, cwd, q) == Ok(v) then Ok(|t.nodes|) else Lookup(t, cwd, q))
      && (Lookup(t, cwd, q) == Ok(v) ==> Lookup(u, cwd, q + [SLASH] + x) == Err(ENOENT))
  {
    hide Wf, Step, Components;
    MountKeepsWf(t, cwd, path, memory);
    var v := Lookup(t, cwd, path).value;
    var u := WithMount(t, v);
    RootVisible(t);
    NothingUnderRoot(t, v);
    LookupIsWalk(t, cwd, q);
    LookupIsWalk(u, cwd, q);
    WalkAfterMount(t, v, ROOT, Components(q));
    if Lookup(t, cwd, q) == Ok(v) {
      LookupComposes(u, cwd, q, x);
      LookupOneWord(u, |t.nodes|, x);
      NewRootIsEmpty(t, v, x);
    }
  }

  lemma NothingUnderRoot(t: Tree, v: nat)
    requires Wf(t) && t.Has(v) && !t.nodes[v].parentIsMount
    ensures !Under(t, ROOT, v) && Covered(t, v, ROOT) == ROOT
  {
    assert NodeOk(t, ROOT);
  }

  lemma NewRootIsEmpty(t: Tree, v: nat, x: string)
    requires t.Has(v) && Ordinary(x)
    ensures Step(WithMount(t, v), |t.nodes|, x) == Err(ENOENT)
  {
    var u := WithMount(t, v);
    assert Cross(u, |t.nodes|) == |t.nodes|;
  }

  // ----- Every run

  /** The tree and the working directories of all threads, `NONE` where one is missing. */
  datatype System = System(tree: Tree, cwds: seq<int>)

  datatype Op =
    | DoMake(thread: nat, path: string, isDir: bool, memory: bool)
    | DoMount(thread: nat, path: string, memory: bool)
    | DoChdir(thread: nat, path: string)

  function Cwd(s: System, thread: nat): int {
    if thread < |s.cwds| then s.cwds[thread] else NONE
  }

  /** Where a thread that changes to `path` ends up: what the lookup gives, and nowhere if it
      fails. */
  function Chdir(t: Tree, cwd: int, path: string): int {
    match Lookup(t, cwd, path)
    case Err(_) => NONE
    case Ok(v) => v
  }

  /** Paths may be relative: they start from the working directory of the thread. */
  function Perform(s: System, op: Op): System {
    match op
    case DoMake(i, path, isDir, memory) => s.(tree := Make(s.tree, Cwd(s, i), path, isDir, memory).0)
    case DoMount(i, path, memory) => s.(tree := Mount(s.tree, Cwd(s, i), path, memory).0)
    case DoChdir(i, path) => s.(cwds := Put(s.cwds, i, Chdir(s.tree, Cwd(s, i), path)))
  }

  function After(s: System, ops: seq<Op>): System
    decreases |ops|
  {
    if ops == [] then s else After(Perform(s, ops[0]), ops[1..])
  }

  ghost predicate CwdOk(t: Tree, v: int) {
    v < 0 || Usable(t, v)
  }

  ghost predicate SystemOk(s: System) {
    Wf(s.tree) && forall i {:trigger s.cwds[i]} :: 0 <= i < |s.cwds| ==> CwdOk(s.tree, s.cwds[i])
  }

  lemma UsableAfterChild(t: Tree, d: nat, name: string, isDir: bool, x: int)
    requires Wf(t) && Usable(t, d) && Usable(t, x)
    ensures Usable(WithChild(t, d, name, isDir), x)
  {
    assert NodeOk(t, x);
    if x != ROOT { ParentUsable(t, x); }
  }

  lemma UsableAfterMount(t: Tree, v: nat, x: int)
    requires Wf(t) && Mountable(t, v) && Usable(t, x)
    ensures Usable(WithMount(t, v), x)
  {
    assert NodeOk(t, x);
    if x != ROOT { ParentUsable(t, x); }
  }

  /** What was usable stays usable. */
  lemma UsableAfterMake(t: Tree, cwd: int, path: string, isDir: bool, memory: bool, x: int)
    requires Wf(t) && Starts(t, cwd, path) && CwdOk(t, x)
    ensures CwdOk(Make(t, cwd, path, isDir, memory).0, x)
  {
    hide Lookup, ParentOf, Refusal, Wf, Usable, BaseName, DirName, Starts, WithChild, LastSlash, Absolute;
    ParentFound(t, cwd, path, isDir);
    var d := ParentOf(t, cwd, path, isDir);
    if x >= 0 && d.Ok? { UsableAfterChild(t, d.value, BaseName(path), isDir, x); }
  }

  lemma UsableAfterMounting(t: Tree, cwd: int, path: string, memory: bool, x: int)
    requires Wf(t) && Starts(t, cwd, path) && CwdOk(t, x)
    ensures CwdOk(Mount(t, cwd, path, memory).0, x)
  {
    hide Lookup, Wf, Usable, WithMount, Absolute, Starts;
    var v := Lookup(t, cwd, path);
    if x >= 0 && v.Ok? && Mountable(t, v.value) { UsableAfterMount(t, v.value, x); }
  }

  lemma PerformKeeps(s: System, op: Op)
    requires SystemOk(s)
    ensures SystemOk(Perform(s, op)) && |Perform(s, op).cwds| == |s.cwds|
  {
    hide Wf, Usable, Make, Mount, Lookup;
    var t, cwd := s.tree, Cwd(s, op.thread);
    match op {
      case DoMake(i, path, isDir, memory) =>
        MakeKeepsWf(t, cwd, path, isDir, memory);
        forall j | 0 <= j < |s.cwds| ensures CwdOk(Perform(s, op).tree, s.cwds[j]) {
          UsableAfterMake(t, cwd, path, isDir, memory, s.cwds[j]);
        }
      case DoMount(i, path, memory) =>
        StartsExists(t, cwd, path);
        MountKeepsWf(t, cwd, path, memory);
        forall j | 0 <= j < |s.cwds| ensures CwdOk(Perform(s, op).tree, s.cwds[j]) {
          UsableAfterMounting(t, cwd, path, memory, s.cwds[j]);
        }
      case DoChdir(i, path) =>
        StartSafe(t, cwd, path);
    }
  }

  lemma {:induction false} AfterKeeps(s: System, ops: seq<Op>)
    requires SystemOk(s)
    ensures SystemOk(After(s, ops)) && |After(s, ops).cwds| == |s.cwds|
    decreases |ops|
  {
    hide SystemOk, Perform;
    if ops != [] {
      PerformKeeps(s, ops[0]);
      AfterKeeps(Perform(s, ops[0]), ops[1..]);
    }
  }

  /** After vfs_init every thread starts in the root directory. */
  function Started(threads: nat): System {
    System(INITIAL, seq(threads, i => ROOT))
  }

  lemma StartedOk(threads: nat)
    ensures SystemOk(Started(threads))
  {
    assert NodeOk(INITIAL, ROOT);
  }

  /** Over every run of mkdir, create, mount and chdir by any threads, on absolute and relative
      paths: a lookup by any thread fails only with "not found" or "not a directory", unless the
      path is relative and the thread has no working directory; an absolute lookup ends on an
      uncovered vnode; and p/x/.. is p whenever p/x resolves for an absolute p. */
  lemma EveryRunLooksUpSafely(threads: nat, ops: seq<Op>, thread: nat, p: string, x: string)
    requires IsWord(x) && Ordinary(x)
    ensures var s := After(Started(threads), ops); var t, cwd := s.tree, Cwd(s, thread);
      && Wf(t)
      && (match Lookup(t, cwd, p)
          case Ok(v) => Usable(t, v) && (Absolute(p) ==> t.nodes[v].mount == NONE)
          case Err(e) => if Absolute(p) || cwd >= 0 then e in {ENOENT, EACCES} else e == EINTERR)
      && (Absolute(p) && Lookup(t, cwd, p + [SLASH] + x).Ok? ==>
            Lookup(t, cwd, p + [SLASH] + x + [SLASH] + "..") == Lookup(t, cwd, p))
  {
    StartedOk(threads);
    AfterKeeps(Started(threads), ops);
    var s := After(Started(threads), ops);
    var t, cwd := s.tree, Cwd(s, thread);
    if Absolute(p) || cwd >= 0 { LookupSafe(t, cwd, p); }
    hide Wf, Usable;
    if Absolute(p) && Lookup(t, cwd, p + [SLASH] + x).Ok? { DotDotLaw(t, cwd, p, x); }
  }

  /** A run that shows the trouble with covered directories: in "/a", something is mounted on "/a",
      and then "x" is made there with success and not found. */
  lemma CoveredDirectoryReached()
    ensures var s := After(Started(1), [DoMake(0, "/a", true, true), DoChdir(0, "/a"), DoMount(0, "/a", true)]);
      var (u, code) := Make(s.tree, Cwd(s, 0), "x", true, true);
      code == 0 && Lookup(u, Cwd(s, 0), "x") == Err(ENOENT)
  {
    var s0 := Started(1);
    var ops := [DoMake(0, "/a", true, true), DoChdir(0, "/a"), DoMount(0, "/a", true)];
    StartedOk(1);
    MakeA();
    var s1 := Perform(s0, ops[0]);
    PerformKeeps(s0, ops[0]);
    var s2 := Perform(s1, ops[1]);
    var s3 := Perform(s2, ops[2]);
    assert ops[1..] == [ops[1], ops[2]] && ops[1..][1..] == [ops[2]] && ops[1..][1..][1..] == [];
    assert After(s0, ops) == s3;
    LookupIgnoresCwd(s1.tree, 0, 1, "/a");
    CoveredDirectoryHides(s1.tree, 1, "x");
  }

  lemma MakeA()
    ensures Make(INITIAL, ROOT, "/a", true, true) == (WithChild(INITIAL, ROOT, "a", true), 0)
    ensures Lookup(WithChild(INITIAL, ROOT, "a", true), ROOT, "/a") == Ok(1)
    ensures Mountable(WithChild(INITIAL, ROOT, "a", true), 1)
    ensures Refusal(WithChild(INITIAL, ROOT, "a", true), 1, "x", true) == 0
  {
    assert LastSlash("/a") == 0 && BaseName("/a") == "a";
    assert NodeOk(INITIAL, ROOT);
    MakeFrame(INITIAL, ROOT, "/a", true, true);
  }

  lemma LookupIgnoresCwd(t: Tree, c: int, d: int, path: string)
    requires Absolute(path)
    ensures Lookup(t, c, path) == Lookup(t, d, path)
  {
  }
}
