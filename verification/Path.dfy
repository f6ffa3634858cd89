/** Path names of src/fs_vfs.c: what the destructive tokenizer yields. */
module Path {
  import opened Sequences

  const SLASH: char := '/'

  /** The length of the part of `s` before the first slash. */
  function WordLength(s: string): (n: nat)
    ensures n <= |s|
    ensures forall i :: 0 <= i < n ==> s[i] != SLASH
    ensures n < |s| ==> s[n] == SLASH
  {
    if s == "" || s[0] == SLASH then 0 else 1 + WordLength(s[1..])
  }

  /** What repeated calls of get_next_component return. */
  function Components(s: string): seq<string>
    decreases |s|
  {
    if s == "" then []
    else if s[0] == SLASH then Components(s[1..])
    else [s[..WordLength(s)]] + Components(s[WordLength(s)..])
  }

  predicate IsWord(w: string) {
    w != "" && SLASH !in w
  }

  function Join(ws: seq<string>): string {
    if ws == [] then "" else [SLASH] + ws[0] + Join(ws[1..])
  }

  lemma {:induction false} WordLengthOf(w: string, rest: string)
    requires SLASH !in w && (rest == "" || rest[0] == SLASH)
    ensures WordLength(w + rest) == |w|
  {
    if w != "" {
      assert (w + rest)[1..] == w[1..] + rest;
      WordLengthOf(w[1..], rest);
    } else {
      assert w + rest == rest;
    }
  }

  /** Every component is a non-empty word without slashes. */
  lemma {:induction false} ComponentsAreWords(s: string)
    ensures forall i :: 0 <= i < |Components(s)| ==> IsWord(Components(s)[i])
    decreases |s|
  {
    if s != "" {
      if s[0] == SLASH {
        ComponentsAreWords(s[1..]);
      } else {
        ComponentsAreWords(s[WordLength(s)..]);
      }
    }
  }

  /** A slash separates: the components of `a/b` are those of `a`, then those of `b`. */
  lemma {:induction false} ComponentsConcat(a: string, b: string)
    ensures Components(a + [SLASH] + b) == Components(a) + Components(b)
    decreases |a|
  {
    var s := a + [SLASH] + b;
    if a == "" {
      assert s[1..] == b;
    } else if a[0] == SLASH {
      assert s[1..] == a[1..] + [SLASH] + b;
      ComponentsConcat(a[1..], b);
    } else {
      var n := WordLength(a);
      var rest := a[n..] + [SLASH] + b;
      assert s == a[..n] + rest;
      WordLengthOf(a[..n], rest);
      assert s[..n] == a[..n] && s[n..] == rest;
      ComponentsConcat(a[n..], b);
    }
  }

  /** A word that ends the string or stands before a slash is the first component. */
  lemma FirstComponent(w: string, rest: string)
    requires IsWord(w) && (rest == "" || rest[0] == SLASH)
    ensures Components(w + rest) == [w] + Components(rest)
  {
    WordLengthOf(w, rest);
    var s := w + rest;
    assert s[0] == w[0] != SLASH;
    assert s[..|w|] == w && s[|w|..] == rest;
  }

  lemma ComponentsOfWord(w: string)
    requires IsWord(w)
    ensures Components(w) == [w]
  {
    FirstComponent(w, "");
    assert w + "" == w;
  }

  /** Tokenizing inverts joining: the components are exactly the words between the slashes. */
  lemma {:induction false} ComponentsOfJoin(ws: seq<string>)
    requires forall i :: 0 <= i < |ws| ==> IsWord(ws[i])
    ensures Components(Join(ws)) == ws
  {
    hide Components;
    EmptyPath();
    if ws != [] {
      var w, rest := ws[0], Join(ws[1..]);
      ComponentsOfJoin(ws[1..]);
      LeadingSlash(w + rest);
      FirstComponent(w, rest);
      assert Join(ws) == [SLASH] + (w + rest);
      assert [w] + ws[1..] == ws;
    }
  }

  lemma EmptyPath()
    ensures Components("") == []
  {
  }

  lemma LeadingSlash(s: string)
    ensures Components([SLASH] + s) == Components(s)
  {
    assert ([SLASH] + s)[1..] == s;
  }

  // ----- The tokenizer on its buffer

  predicate AllSlashes(s: string) {
    forall i :: 0 <= i < |s| ==> s[i] == SLASH
  }

  lemma {:induction false} SkipSlashes(slashes: string, rest: string)
    requires AllSlashes(slashes)
    ensures Components(slashes + rest) == Components(rest)
  {
    hide Components;
    if slashes == "" {
      assert slashes + rest == rest;
    } else {
      SkipSlashes(slashes[1..], rest);
      LeadingSlash(slashes[1..] + rest);
      assert slashes + rest == [SLASH] + (slashes[1..] + rest);
    }
  }

  lemma NoComponents(s: string)
    requires AllSlashes(s)
    ensures Components(s) == []
  {
    SkipSlashes(s, "");
    assert s + "" == s;
  }

  /** Leading slashes, a word, and what follows it. */
  lemma NextComponent(slashes: string, word: string, rest: string)
    requires AllSlashes(slashes) && IsWord(word) && (rest == "" || rest[0] == SLASH)
    ensures Components(slashes + word + rest) == [word] + Components(rest)
    ensures rest != "" ==> Components(rest) == Components(rest[1..])
  {
    hide Components;
    SkipSlashes(slashes, word + rest);
    assert slashes + word + rest == slashes + (word + rest);
    FirstComponent(word, rest);
    if rest != "" {
      LeadingSlash(rest[1..]);
      assert rest == [SLASH] + rest[1..];
    }
  }

  /** get_next_component: `buf[pos..n]` is what is left of the path, NUL-terminated at `n`. The
      result is the start of the next component, which the buffer now holds as a C string, or
      -1 when there is none; the untouched rest is what later calls see. */
  method GetNextComponent(buf: array<char>, pos: nat, n: nat) returns (component: int, next: nat)
    requires pos <= n < buf.Length && buf[n] == NUL
    requires forall i :: pos <= i < n ==> buf[i] != NUL
    modifies buf
    ensures pos <= next <= n && buf[n] == NUL && buf[next..n] == old(buf[next..n])
    ensures component == -1 <==> Components(old(buf[pos..n])) == []
    ensures forall i :: next <= i < n ==> buf[i] != NUL
    ensures component != -1 ==> pos <= component < buf.Length && next > pos
    ensures component != -1 ==>
      Components(old(buf[pos..n])) == [CString(buf[..], component)] + Components(buf[next..n])
  {
    hide Components, CString;
    ghost var path := buf[pos..n];
    assert forall i :: 0 <= i < |path| ==> path[i] == buf[pos + i];
    if buf[pos] == NUL {
      NoComponents(path);
      return -1, pos;
    }
    var start := pos;
    while buf[start] == SLASH
      invariant pos <= start <= n
      invariant forall i :: pos <= i < start ==> buf[i] == SLASH
      decreases n - start
    {
      start := start + 1;
    }
    if buf[start] == NUL {
      NoComponents(path);
      return -1, start;
    }
    var end := start;
    while buf[end] != NUL && buf[end] != SLASH
      invariant start <= end <= n
      invariant forall i :: start <= i < end ==> buf[i] != SLASH
      decreases n - end
    {
      end := end + 1;
    }
    ghost var slashes, word, rest := buf[pos..start], buf[start..end], buf[end..n];
    assert path == slashes + word + rest;
    NextComponent(slashes, word, rest);
    component := start;
    if buf[end] == SLASH {
      assert rest[1..] == buf[end + 1..n];
      buf[end] := NUL;
      next := end + 1;
    } else {
      next := end;
    }
    CStringUpTo(buf[..], start, end);
    assert buf[..][start..end] == word;
  }
}
