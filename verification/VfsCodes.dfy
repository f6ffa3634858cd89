/** When lookup steps, mkdir, create and mount succeed, and which error they give otherwise. */
module VfsCodes {
  import opened Sequences
  import opened Errors
  import opened Path
  import opened Vfs
  import opened VfsLaws
  import opened VfsFrames

  /** Directory `d` has a child called `name`. */
  ghost predicate HasChild(t: Tree, d: nat, name: string)
    requires t.Has(d)
  {
    exists c :: c in t.nodes[d].children && t.Has(c) && t.nodes[c].name == name
  }

  lemma {:induction false} FindChildFinds(t: Tree, cs: seq<nat>, name: string)
    requires forall c :: c in cs ==> t.Has(c)
    ensures FindChild(t, cs, name) < |cs| <==> exists c :: c in cs && t.Has(c) && t.nodes[c].name == name
  {
    var i := FindChild(t, cs, name);
    if i < |cs| {
      assert cs[i] in cs && t.Has(cs[i]);
    }
    if c :| c in cs && t.Has(c) && t.nodes[c].name == name {
      var j :| 0 <= j < |cs| && cs[j] == c;
    }
  }

  lemma HasChildIs(t: Tree, d: nat, name: string)
    requires Wf(t) && t.Has(d)
    ensures HasChild(t, d, name) <==> FindChild(t, t.nodes[d].children, name) < |t.nodes[d].children|
  {
    ChildrenExist(t, d);
    FindChildFinds(t, t.nodes[d].children, name);
  }

  /** Names in a directory are unique: a child with the name is the child that is found. */
  lemma FoundChild(t: Tree, d: nat, name: string, c: nat)
    requires Wf(t) && t.Has(d) && c in t.nodes[d].children && t.Has(c) && t.nodes[c].name == name
    ensures var i := FindChild(t, t.nodes[d].children, name);
      i < |t.nodes[d].children| && t.nodes[d].children[i] == c
  {
    var cs := t.nodes[d].children;
    ChildrenExist(t, d);
    assert NodeOk(t, d) && UniqueNames(t, cs);
    FindChildFinds(t, cs, name);
    var i := FindChild(t, cs, name);
    var j :| 0 <= j < |cs| && cs[j] == c;
    assert cs[i] in cs && t.Has(cs[i]);
    assert forall a, b :: 0 <= a < b < |cs| ==> cs[a] in cs && cs[b] in cs && t.nodes[cs[a]].name != t.nodes[cs[b]].name;
  }

  /** Looking up an ordinary name, exactly: in a file it gives EACCES, in a directory without the
      name ENOENT, and otherwise the child, or the root of what is mounted on it. */
  lemma StepExactly(t: Tree, v: nat, name: string)
    requires Wf(t) && Usable(t, v) && Ordinary(name)
    ensures t.Has(Cross(t, v))
    ensures var d := Cross(t, v); var r := Step(t, v, name);
      && (r == Err(EACCES) <==> !t.nodes[d].isDir)
      && (r == Err(ENOENT) <==> t.nodes[d].isDir && !HasChild(t, d, name))
      && (r.Ok? <==> t.nodes[d].isDir && HasChild(t, d, name))
      && (forall c {:trigger t.nodes[c].name} :: t.nodes[d].isDir && c in t.nodes[d].children && t.Has(c) && t.nodes[c].name == name ==>
            r == Ok(if t.nodes[c].mount == NONE then c else t.nodes[c].mount))
  {
    var d := Cross(t, v);
    CrossUsable(t, v);
    HasChildIs(t, d, name);
    StepUsable(t, v, name);
    forall c | t.nodes[d].isDir && c in t.nodes[d].children && t.Has(c) && t.nodes[c].name == name
      ensures Step(t, v, name) == Ok(if t.nodes[c].mount == NONE then c else t.nodes[c].mount)
    {
      FoundChild(t, d, name, c);
      assert NodeOk(t, c);
    }
  }

  lemma NoSlashIn(name: string)
    requires SLASH !in name
    ensures forall k :: 0 <= k < |name| ==> name[k] != SLASH
  {
  }

  lemma {:induction false} LastSlashOfPath(dir: string, name: string)
    requires SLASH !in name
    ensures LastSlash(dir + [SLASH] + name) == |dir|
    decreases |name|
  {
    var path := dir + [SLASH] + name;
    NoSlashIn(name);
    if name != "" {
      var shorter := name[..|name| - 1];
      assert path[|path| - 1] == name[|name| - 1];
      assert path[..|path| - 1] == dir + [SLASH] + shorter;
      LastSlashOfPath(dir, shorter);
    }
  }

  lemma LastSlashOfWord(name: string)
    requires SLASH !in name
    ensures LastSlash(name) == -1
  {
    hide LastSlash;
    NoSlashIn(name);
  }

  lemma LastSlashIs(dir: string, name: string)
    requires SLASH !in name
    ensures LastSlash(dir + [SLASH] + name) == |dir|
    ensures BaseName(dir + [SLASH] + name) == name
    ensures LastSlash(name) == -1 && BaseName(name) == name
  {
    LastSlashOfPath(dir, name);
    LastSlashOfWord(name);
    hide LastSlash;
    var path := dir + [SLASH] + name;
    assert path[|dir| + 1..] == name;
    assert name[0..] == name;
  }

  /** What mkdir or create answers in the directory that the leading part of the path gave. */
  ghost predicate Answers(t: Tree, d: nat, name: string, memory: bool, code: int)
    requires t.Has(d)
  {
    var dir, n, full := t.nodes[d].isDir, |name|, |t.nodes[d].children| >= 16;
    && (code == 0 <==> dir && 1 <= n <= 63 && !HasChild(t, d, name) && !full && memory)
    && (code == EINVAL <==> n == 0 || (dir && n >= 64))
    && (code == EACCES <==> n > 0 && !dir)
    && (code == EEXIST <==> dir && 1 <= n <= 63 && HasChild(t, d, name))
    && (code == ENOMEM <==> dir && 1 <= n <= 63 && !HasChild(t, d, name) && (full || !memory))
  }

  lemma RefusalAnswers(t: Tree, d: nat, name: string, memory: bool)
    requires Wf(t) && t.Has(d)
    ensures Answers(t, d, name, memory, Refusal(t, d, name, memory))
  {
    HasChildIs(t, d, name);
    hide Wf, HasChild, FindChild;
  }

  /** The answer of mkdir and create for "dir/name", absolute or relative: the error of looking up
      `dir`, which is the root when `dir` is empty, or what that directory allows. */
  lemma MakeCode(t: Tree, cwd: int, dir: string, name: string, isDir: bool, memory: bool)
    requires SLASH !in name && Wf(t) && Starts(t, cwd, dir + [SLASH] + name)
    ensures var r := Lookup(t, cwd, if dir == "" then "/" else dir);
      var code := Make(t, cwd, dir + [SLASH] + name, isDir, memory).1;
      && (r.Err? ==> code == r.code)
      && (r.Ok? ==> t.Has(r.value) && Answers(t, r.value, name, memory, code))
  {
    var path := dir + [SLASH] + name;
    LastSlashIs(dir, name);
    ParentFound(t, cwd, path, isDir);
    assert dir != "" ==> path[..|dir|] == dir;
    hide Wf, Lookup, LastSlash, Refusal, WithChild, Answers, BaseName;
    var r := Lookup(t, cwd, if dir == "" then "/" else dir);
    if r.Ok? { RefusalAnswers(t, r.value, name, memory); }
  }

  /** The answer for a bare name: what the working directory allows. Without one, mkdir fails, while
      create makes the file in the root. */
  lemma MakeCodeInPlace(t: Tree, cwd: int, name: string, isDir: bool, memory: bool)
    requires SLASH !in name && Wf(t) && Starts(t, cwd, name)
    ensures t.Has(ROOT)
    ensures var code := Make(t, cwd, name, isDir, memory).1;
      && (cwd >= 0 ==> t.Has(cwd) && Answers(t, cwd, name, memory, code))
      && (cwd < 0 && isDir ==> code == EINTERR)
      && (cwd < 0 && !isDir ==> Answers(t, ROOT, name, memory, code))
  {
    LastSlashIs("", name);
    RootVisible(t);
    NoSlashIn(name);
    hide Wf, Lookup, LastSlash, WithChild, Refusal, Answers, BaseName;
    RefusalAnswers(t, ROOT, name, memory);
    if cwd >= 0 { RefusalAnswers(t, cwd, name, memory); }
  }

  /** The answer of mount: the error of the lookup; EBUSY for the root of the tree, for the root of
      a mounted file system and for a directory that is mounted on; ENOMEM; or success. */
  lemma MountCode(t: Tree, cwd: int, path: string, memory: bool)
    requires Wf(t) && Exists(t, cwd, path)
    ensures var r := Lookup(t, cwd, path); var code := Mount(t, cwd, path, memory).1;
      && (r.Err? ==> code == r.code)
      && (r.Ok? ==> t.Has(r.value) && MountAnswers(t, r.value, memory, code))
  {
    LookupExists(t, cwd, path);
    var r := Lookup(t, cwd, path);
    hide Lookup;
    if r.Ok? {
      assert NodeOk(t, r.value);
      if r.value != ROOT { ParentUsable(t, r.value); }
    }
  }

  ghost predicate MountAnswers(t: Tree, v: nat, memory: bool, code: int)
    requires t.Has(v)
  {
    var busy := t.nodes[v].mount != NONE || v == ROOT || t.MountRoot(t.nodes[v].parent) == v;
    && (code == 0 <==> !busy && memory)
    && (code == EBUSY <==> busy)
    && (code == ENOMEM <==> !busy && !memory)
  }

  /** On an absolute path the target is never mounted on: the lookup has crossed already. */
  lemma MountCodeAbsolute(t: Tree, path: string, memory: bool)
    requires Wf(t) && Absolute(path)
    ensures var r := Lookup(t, NONE, path);
      Mount(t, NONE, path, memory).1 == 0 <==>
        r.Ok? && t.Has(r.value) && r.value != ROOT && t.MountRoot(t.nodes[r.value].parent) != r.value && memory
  {
    MountCode(t, NONE, path, memory);
    LookupSafe(t, NONE, path);
    hide Wf, Lookup, Mount;
  }
}
