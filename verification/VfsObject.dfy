/** src/fs_vfs.c on its global state: the loops, proved to compute the functions of `Vfs`. */
module VfsObject {
  import opened Sequences
  import opened Errors
  import opened Path
  import opened Vfs
  import opened VfsLaws
  import opened VfsFrames

  class FileSystem {
    var nodes: seq<Vnode>

    ghost function Abs(): Tree
      reads this
    {
      Tree(nodes)
    }

    constructor ()
      ensures Abs() == INITIAL
    {
      nodes := [Vnode([SLASH], true, NONE, NONE, true, [])];
    }

    /** tmpfs_lookup: the children are compared one by one. */
    method LookupIn(d: nat, name: string) returns (r: Result<nat>)
      requires Wf(Abs()) && d < |nodes|
      ensures r == TmpfsLookup(Abs(), d, name)
    {
      if !nodes[d].isDir { return Err(EACCES); }
      var cs := nodes[d].children;
      ChildrenExist(Abs(), d);
      hide Wf;
      var i := 0;
      while i < |cs|
        invariant 0 <= i <= |cs|
        invariant FindChild(Abs(), cs, name) == i + FindChild(Abs(), cs[i..], name)
      {
        assert cs[i] in cs && cs[i..][1..] == cs[i + 1..];
        if nodes[cs[i]].name == name { return Ok(cs[i]); }
        i := i + 1;
      }
      return Err(ENOENT);
    }

    /** vfs_lookup of `path`; `memory` is whether the path could be copied. */
    method LookupPath(cwd: int, path: string, memory: bool) returns (r: Result<nat>)
      requires Wf(Abs()) && NUL !in path && (Absolute(path) || cwd < 0 || Abs().Has(cwd))
      ensures r == if memory then Lookup(Abs(), cwd, path) else Err(ENOMEM)
    {
      if !memory { return Err(ENOMEM); }
      var n := |path|;
      var buf := new char[n + 1](i => if 0 <= i < |path| then path[i] else NUL);
      var current: nat;
      if path != "" && path[0] == SLASH {
        current := ROOT;
      } else {
        if cwd < 0 { return Err(EINTERR); }
        current := cwd;
      }
      if path == [SLASH] { return Ok(ROOT); }
      if path == "" || path == "." { return Ok(current); }

      LookupIsWalk(Abs(), cwd, path);
      hide Wf, Components, Lookup;
      assert buf[0..n] == path;
      assert forall i :: 0 <= i < n ==> buf[i] == path[i] && path[i] in path;
      var pos := 0;
      var component, next := GetNextComponent(buf, pos, n);
      while component != -1
        invariant pos <= next <= n && buf[n] == NUL && (component != -1 ==> pos <= component < buf.Length && next > pos)
        invariant fresh(buf) && unchanged(this) && Abs().Has(current)
        invariant component != -1 ==>
          Lookup(Abs(), cwd, path) == Walk(Abs(), current, [CString(buf[..], component)] + Components(buf[next..n]))
        invariant component == -1 ==> Lookup(Abs(), cwd, path) == Ok(current)
        invariant forall i :: next <= i < n ==> buf[i] != NUL
        decreases n - pos, component != -1
      {
        var name := ReadString(buf, component);
        ghost var rest := Components(buf[next..n]);
        assert ([name] + rest)[1..] == rest;
        StepExists(Abs(), current, name);
        var s := StepOnce(current, name);
        if s.Err? { return Err(s.code); }
        current := s.value;
        pos := next;
        component, next := GetNextComponent(buf, pos, n);
      }
      return Ok(current);
    }

    /** The C string at `start` of the buffer. */
    method ReadString(buf: array<char>, start: nat) returns (s: string)
      requires start <= buf.Length
      ensures s == CString(buf[..], start)
    {
      s := "";
      var i := start;
      while i < buf.Length && buf[i] != NUL
        invariant start <= i <= buf.Length
        invariant CString(buf[..], start) == s + CString(buf[..], i)
      {
        s := s + [buf[i]];
        i := i + 1;
      }
    }

    /** The body of the lookup loop. */
    method StepOnce(v: nat, name: string) returns (r: Result<nat>)
      requires Wf(Abs()) && v < |nodes|
      ensures r == Step(Abs(), v, name)
    {
      assert NodeOk(Abs(), v);
      if name == "." { return Ok(v); }
      if name == ".." {
        if v == ROOT { return Ok(v); }
        assert NodeOk(Abs(), nodes[v].parent);
        if nodes[v].parent == NONE { return Err(EINTERR); }
        var p: nat := nodes[v].parent;
        if nodes[p].mount != NONE && nodes[p].mount == v {
          if p == ROOT { return Ok(ROOT); }
          if nodes[p].parent != NONE { return Ok(nodes[p].parent); }
          return Err(EINTERR);
        }
        return Ok(p);
      }
      var d := v;
      if nodes[d].mount != NONE { d := nodes[d].mount; }
      var found := LookupIn(d, name);
      if found.Err? { return found; }
      LookupChild(Abs(), d, name);
      ChildrenExist(Abs(), d);
      var next := found.value;
      assert NodeOk(Abs(), next);
      if nodes[next].mount != NONE { next := nodes[next].mount; }
      return Ok(next);
    }

    method FindLastSlash(path: string) returns (last: int)
      ensures last == LastSlash(path)
    {
      last := -1;
      var i := |path| - 1;
      while i >= 0
        invariant -1 <= i < |path| && LastSlash(path) == LastSlash(path[..i + 1])
      {
        if path[i] == SLASH { return i; }
        assert path[..i + 1][..i] == path[..i];
        i := i - 1;
      }
    }

    /** tmpfs_create_or_mkdir. */
    method CreateIn(d: nat, name: string, isDir: bool, memory: bool) returns (code: int)
      requires Wf(Abs()) && d < |nodes|
      modifies this
      ensures code == Refusal(old(Abs()), d, name, memory)
      ensures Abs() == if code == 0 then WithChild(old(Abs()), d, name, isDir) else old(Abs())
    {
      if name == "" { return EINVAL; }
      if !nodes[d].isDir { return EACCES; }
      if |name| >= MAX_FILE_NAME { return EINVAL; }
      var found := LookupIn(d, name);
      if found.Ok? { return EEXIST; }
      if |nodes[d].children| >= MAX_CHILDREN { return ENOMEM; }
      if !memory { return ENOMEM; }
      var n := |nodes|;
      nodes := nodes + [Vnode(name, isDir, d, nodes[d].mount, false, [])];
      nodes := nodes[d := nodes[d].(children := nodes[d].children + [n])];
      code := 0;
    }

    /** The parsing of the parent directory, up to its lookup. */
    method FindParent(cwd: int, path: string, isDir: bool, last: int) returns (r: Result<nat>)
      requires Wf(Abs()) && Starts(Abs(), cwd, path) && NUL !in path && last == LastSlash(path)
      ensures r == ParentOf(Abs(), cwd, path, isDir)
    {
      hide Wf, Lookup;
      if last == -1 {
        if cwd >= 0 { return Ok(cwd); }
        if isDir { return Err(EINTERR); }
        return Ok(ROOT);
      }
      if last == 0 {
        r := LookupPath(cwd, [SLASH], true);
      } else {
        assert path[..last][0] == path[0];
        r := LookupPath(cwd, path[..last], true);
      }
    }

    /** vfs_mkdir, and the create path of vfs_open when `isDir` is false. */
    method MakeNode(cwd: int, path: string, isDir: bool, memory: bool) returns (code: int)
      requires Wf(Abs()) && Starts(Abs(), cwd, path) && NUL !in path
      modifies this
      ensures Wf(Abs()) && (Abs(), code) == Make(old(Abs()), cwd, path, isDir, memory)
    {
      hide Wf, ParentOf, Lookup, Refusal, WithChild, Inert, DirName, Starts;
      MakeKeepsWf(Abs(), cwd, path, isDir, memory);
      ParentFound(Abs(), cwd, path, isDir);
      var last := FindLastSlash(path);
      var parent := FindParent(cwd, path, isDir, last);
      if parent.Err? { return parent.code; }
      code := CreateIn(parent.value, path[last + 1..], isDir, memory);
    }

    /** vfs_mount of a tmpfs. */
    method MountTmpfs(cwd: int, path: string, memory: bool) returns (code: int)
      requires Wf(Abs()) && Exists(Abs(), cwd, path) && NUL !in path
      modifies this
      ensures Wf(Abs()) && (Abs(), code) == Mount(old(Abs()), cwd, path, memory)
    {
      MountKeepsWf(Abs(), cwd, path, memory);
      LookupExists(Abs(), cwd, path);
      var target := LookupPath(cwd, path, true);
      if target.Err? { return target.code; }
      var v := target.value;
      if nodes[v].mount != NONE || nodes[v].parentIsMount { return EBUSY; }
      if !memory { return ENOMEM; }
      var root := |nodes|;
      nodes := nodes + [Vnode([SLASH], true, NONE, NONE, true, [])];
      nodes := nodes[v := nodes[v].(mount := root)];
      nodes := nodes[root := nodes[root].(parent := v)];
      assert nodes == WithMount(old(Abs()), v).nodes;
      code := 0;
    }
  }
}
