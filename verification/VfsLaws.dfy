/** The laws of lookup, mkdir, create and mount. */
module VfsLaws {
  import opened Errors
  import opened Path
  import opened Vfs

  // ----- Walks stay on usable vnodes

  lemma ChildrenExist(t: Tree, d: nat)
    requires Wf(t) && t.Has(d)
    ensures forall c :: c in t.nodes[d].children ==> d < c < |t.nodes| && t.nodes[c].parent == d && !t.nodes[c].parentIsMount
  {
    assert NodeOk(t, d);
    forall c | c in t.nodes[d].children ensures d < c < |t.nodes| && t.nodes[c].parent == d && !t.nodes[c].parentIsMount {
      var i: nat :| i < |t.nodes[d].children| && t.nodes[d].children[i] == c;
      assert ChildOk(t, d, i);
    }
  }

  /** A parent has a child or a mount of its own, so it is usable. */
  lemma ParentUsable(t: Tree, v: nat)
    requires Wf(t) && t.Has(v) && v != ROOT
    ensures 0 <= t.nodes[v].parent < v && Usable(t, t.nodes[v].parent)
    ensures t.nodes[v].parentIsMount <==> t.nodes[t.nodes[v].parent].mount == v
    ensures t.nodes[v].parentIsMount ==> t.nodes[v].parent != ROOT
  {
    assert NodeOk(t, v) && NodeOk(t, t.nodes[v].parent);
  }

  lemma CrossUsable(t: Tree, v: nat)
    requires Wf(t) && Usable(t, v)
    ensures Usable(t, Cross(t, v)) && t.nodes[Cross(t, v)].mount == NONE
    ensures t.nodes[v].mount != NONE ==> MountOk(t, v)
  {
    assert NodeOk(t, v);
  }

  lemma LookupChild(t: Tree, d: nat, name: string)
    requires t.Has(d)
    ensures TmpfsLookup(t, d, name).Ok? ==> TmpfsLookup(t, d, name).value in t.nodes[d].children
    ensures TmpfsLookup(t, d, name).Err? ==> TmpfsLookup(t, d, name).code in {ENOENT, EACCES}
  {
  }

  /** ".." from an existing vnode never fails. */
  lemma DotDotUsable(t: Tree, v: nat)
    requires Wf(t) && t.Has(v)
    ensures DotDot(t, v).Ok? && Usable(t, DotDot(t, v).value)
  {
    assert NodeOk(t, v);
    if v != ROOT {
      ParentUsable(t, v);
      if t.nodes[v].parentIsMount { ParentUsable(t, t.nodes[v].parent); }
    }
  }

  /** A child of an uncovered directory, or the root of what is mounted on the child, is usable,
      and ".." from there leads back to the directory. */
  lemma CrossedChild(t: Tree, d: nat, c: nat)
    requires Wf(t) && t.Has(d) && t.nodes[d].mount == NONE && c in t.nodes[d].children
    ensures Usable(t, c) && Usable(t, Cross(t, c)) && Cross(t, c) != ROOT && DotDot(t, Cross(t, c)) == Ok(d)
  {
    ChildrenExist(t, d);
    assert NodeOk(t, c);
    CrossUsable(t, c);
  }

  /** One step from a usable vnode: never an internal error, and only to a usable vnode. After an
      ordinary name, ".." leads back to where the name was looked up. */
  lemma StepUsable(t: Tree, v: nat, c: string)
    requires Wf(t) && Usable(t, v)
    ensures Step(t, v, c).Ok? ==> Usable(t, Step(t, v, c).value)
    ensures Step(t, v, c).Err? ==> Ordinary(c) && Step(t, v, c).code in {ENOENT, EACCES}
    ensures Ordinary(c) && Step(t, v, c).Ok? ==> Step(t, Step(t, v, c).value, "..") == Ok(Cross(t, v))
  {
    DotDotUsable(t, v);
    if Ordinary(c) {
      var d := Cross(t, v);
      CrossUsable(t, v);
      LookupChild(t, d, c);
      var r := TmpfsLookup(t, d, c);
      if r.Ok? { CrossedChild(t, d, r.value); }
    }
  }

  lemma {:induction false} WalkUsable(t: Tree, v: nat, cs: seq<string>)
    requires Wf(t) && Usable(t, v)
    ensures Walk(t, v, cs).Ok? ==> Usable(t, Walk(t, v, cs).value)
    ensures Walk(t, v, cs).Err? ==> Walk(t, v, cs).code in {ENOENT, EACCES}
    decreases |cs|
  {
    hide Wf, Usable, Step;
    if cs != [] {
      StepUsable(t, v, cs[0]);
      if Step(t, v, cs[0]).Ok? { WalkUsable(t, Step(t, v, cs[0]).value, cs[1..]); }
    }
  }

  // ----- Walks stay on visible vnodes

  /** Where ".." leads from `v`: past the mount point when `v` is a mount root. */
  function Up(t: Tree, v: nat): int {
    if t.Has(v) && t.nodes[v].parentIsMount then t.Parent(t.Parent(v)) else t.Parent(v)
  }

  /** `v` is not covered by a mount, nor is anything on its way up to the root. */
  ghost predicate Visible(t: Tree, v: nat)
    decreases v
  {
    t.Has(v) && t.nodes[v].mount == NONE && (v == ROOT || (0 <= Up(t, v) < v && Visible(t, Up(t, v))))
  }

  lemma VisibleDotDot(t: Tree, v: nat)
    requires Wf(t) && Visible(t, v)
    ensures v == ROOT ==> DotDot(t, v) == Ok(ROOT)
    ensures v != ROOT ==> Up(t, v) >= 0 && DotDot(t, v) == Ok(Up(t, v)) && Visible(t, Up(t, v))
  {
    if v != ROOT { ParentUsable(t, v); }
  }

  /** A child of a visible directory, or the root of what is mounted on it, is visible. */
  lemma CrossedChildVisible(t: Tree, v: nat, c: nat)
    requires Wf(t) && Visible(t, v) && c in t.nodes[v].children
    ensures t.Has(c) && Visible(t, Cross(t, c)) && Cross(t, c) != ROOT && Up(t, Cross(t, c)) == v
  {
    ChildrenExist(t, v);
    CrossedChild(t, v, c);
    CrossUsable(t, c);
  }

  /** One step from a vnode that nothing covers ends on another one. */
  lemma StepVisible(t: Tree, v: nat, c: string)
    requires Wf(t) && Visible(t, v)
    ensures Step(t, v, c).Ok? ==> Visible(t, Step(t, v, c).value)
  {
    VisibleDotDot(t, v);
    if Ordinary(c) {
      LookupChild(t, v, c);
      var r := TmpfsLookup(t, v, c);
      if r.Ok? { CrossedChildVisible(t, v, r.value); }
    }
  }

  lemma {:induction false} WalkVisible(t: Tree, v: nat, cs: seq<string>)
    requires Wf(t) && Visible(t, v)
    ensures Walk(t, v, cs).Ok? ==> Visible(t, Walk(t, v, cs).value)
    decreases |cs|
  {
    hide Wf, Visible, Step;
    if cs != [] {
      StepVisible(t, v, cs[0]);
      if Step(t, v, cs[0]).Ok? { WalkVisible(t, Step(t, v, cs[0]).value, cs[1..]); }
    }
  }

  lemma RootVisible(t: Tree)
    requires Wf(t)
    ensures Visible(t, ROOT)
  {
    assert NodeOk(t, ROOT);
  }

  lemma {:induction false} WalkConcat(t: Tree, v: nat, a: seq<string>, b: seq<string>)
    ensures Walk(t, v, a + b) == match Walk(t, v, a) case Err(e) => Err(e) case Ok(w) => Walk(t, w, b)
    decreases |a|
  {
    hide Step;
    if a == [] {
      assert a + b == b;
    } else {
      assert (a + b)[1..] == a[1..] + b;
      if Step(t, v, a[0]).Ok? { WalkConcat(t, Step(t, v, a[0]).value, a[1..], b); }
    }
  }

  // ----- Paths

  /** The special cases for "/", "" and "." agree with the general loop. */
  lemma LookupIsWalk(t: Tree, cwd: int, path: string)
    requires Absolute(path) || cwd >= 0
    ensures Lookup(t, cwd, path) == Walk(t, if Absolute(path) then ROOT else cwd, Components(path))
  {
    if path == "." {
      ComponentsOfWord(".");
      var start: nat := cwd;
      assert Walk(t, start, ["."]) == Walk(t, start, ["."][1..]);
    } else if path == [SLASH] {
      LeadingSlash("");
      EmptyPath();
      assert [SLASH] + "" == path;
    }
  }

  /** Looking up p/q is looking up p and then q from there, errors included. */
  lemma LookupComposes(t: Tree, cwd: int, p: string, q: string)
    requires p != "" && !Absolute(q)
    ensures Lookup(t, cwd, p + [SLASH] + q) ==
      match Lookup(t, cwd, p) case Err(e) => Err(e) case Ok(v) => Lookup(t, v, q)
  {
    var s := p + [SLASH] + q;
    assert Absolute(s) <==> Absolute(p) by { assert s[0] == p[0]; }
    if Absolute(p) || cwd >= 0 {
      LookupIsWalk(t, cwd, s);
      LookupIsWalk(t, cwd, p);
      ComponentsConcat(p, q);
      var start: nat := if Absolute(p) then ROOT else cwd;
      WalkConcat(t, start, Components(p), Components(q));
      var r := Lookup(t, cwd, p);
      if r.Ok? { LookupIsWalk(t, r.value, q); }
    }
  }

  lemma VisibleUsable(t: Tree, v: nat)
    requires Wf(t) && Visible(t, v)
    ensures Usable(t, v)
  {
  }

  /** In a well-formed tree a lookup from the root or from a usable working directory never
      reports an internal error; from the root, or from a directory that nothing covers, it
      never ends on a covered vnode. */
  lemma LookupSafe(t: Tree, cwd: int, path: string)
    requires Wf(t) && (Absolute(path) || (cwd >= 0 && Usable(t, cwd)))
    ensures Lookup(t, cwd, path).Ok? ==> Usable(t, Lookup(t, cwd, path).value)
    ensures Lookup(t, cwd, path).Ok? && (Absolute(path) || Visible(t, cwd)) ==> Visible(t, Lookup(t, cwd, path).value)
    ensures Lookup(t, cwd, path).Err? ==> Lookup(t, cwd, path).code in {ENOENT, EACCES}
  {
    hide Wf, Visible, Usable, Components;
    LookupIsWalk(t, cwd, path);
    RootVisible(t);
    VisibleUsable(t, ROOT);
    var start: nat := if Absolute(path) then ROOT else cwd;
    WalkUsable(t, start, Components(path));
    if Visible(t, start) { WalkVisible(t, start, Components(path)); }
  }

  /** From an existing vnode every step ends on an existing vnode. */
  lemma StepExists(t: Tree, v: nat, c: string)
    requires Wf(t) && t.Has(v)
    ensures Step(t, v, c).Ok? ==> t.Has(Step(t, v, c).value)
    ensures Step(t, v, c).Err? ==> Step(t, v, c).code < 0
  {
    assert NodeOk(t, v);
    DotDotUsable(t, v);
    if Ordinary(c) {
      var d := Cross(t, v);
      LookupChild(t, d, c);
      ChildrenExist(t, d);
      var r := TmpfsLookup(t, d, c);
      if r.Ok? { assert NodeOk(t, r.value); }
    }
  }

  lemma {:induction false} WalkExists(t: Tree, v: nat, cs: seq<string>)
    requires Wf(t) && t.Has(v)
    ensures Walk(t, v, cs).Ok? ==> t.Has(Walk(t, v, cs).value)
    ensures Walk(t, v, cs).Err? ==> Walk(t, v, cs).code < 0
    decreases |cs|
  {
    hide Wf, Step;
    if cs != [] {
      StepExists(t, v, cs[0]);
      if Step(t, v, cs[0]).Ok? { WalkExists(t, Step(t, v, cs[0]).value, cs[1..]); }
    }
  }

  /** The starting point of `path` is the root, an existing vnode, or missing. */
  predicate Exists(t: Tree, cwd: int, path: string) {
    Absolute(path) || cwd < 0 || t.Has(cwd)
  }

  lemma LookupExists(t: Tree, cwd: int, path: string)
    requires Wf(t) && Exists(t, cwd, path)
    ensures Lookup(t, cwd, path).Ok? ==> t.Has(Lookup(t, cwd, path).value)
    ensures Lookup(t, cwd, path).Err? ==> Lookup(t, cwd, path).code < 0
    ensures t.Has(ROOT)
  {
    RootVisible(t);
    hide Components;
    if Absolute(path) || cwd >= 0 {
      LookupIsWalk(t, cwd, path);
      WalkExists(t, if Absolute(path) then ROOT else cwd, Components(path));
    }
  }

  /** The dot-dot law: if p/x resolves, x an ordinary name, then p/x/.. resolves to p, also when
      x is a mount point. Where p itself has been covered, which only a working directory can
      be, it resolves to the root of what covers p. */
  lemma DotDotLaw(t: Tree, cwd: int, p: string, x: string)
    requires Wf(t) && p != "" && (Absolute(p) || (cwd >= 0 && Usable(t, cwd))) && IsWord(x) && Ordinary(x)
    requires Lookup(t, cwd, p + [SLASH] + x).Ok?
    ensures Lookup(t, cwd, p).Ok?
    ensures Lookup(t, cwd, p + [SLASH] + x + [SLASH] + "..") == Ok(Cross(t, Lookup(t, cwd, p).value))
    ensures Absolute(p) ==> Cross(t, Lookup(t, cwd, p).value) == Lookup(t, cwd, p).value
  {
    LookupSafe(t, cwd, p);
    hide Wf, Step, Components, Usable;
    LookupComposes(t, cwd, p, x);
    var u := Lookup(t, cwd, p).value;
    LookupComposes(t, cwd, p + [SLASH] + x, "..");
    LookupOneWord(t, u, x);
    StepUsable(t, u, x);
    LookupOneWord(t, Lookup(t, u, x).value, "..");
  }

  lemma LookupOneWord(t: Tree, v: nat, w: string)
    requires IsWord(w)
    ensures Lookup(t, v, w) == Step(t, v, w)
  {
    hide Step, Components;
    LookupIsWalk(t, v, w);
    ComponentsOfWord(w);
    assert [w][1..] == [];
    assert Walk(t, v, [w]) == match Step(t, v, w) case Err(e) => Err(e) case Ok(x) => Walk(t, x, [w][1..]);
  }
}
