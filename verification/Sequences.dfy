/** Small sequence operations shared by the models. */
module Sequences {

  datatype Option<T> = None | Some(value: T)

  function Min(a: nat, b: nat): nat { if a < b then a else b }

  function Max(a: nat, b: nat): nat { if a > b then a else b }

  ghost predicate NoDuplicates<T>(s: seq<T>) {
    forall i, j :: 0 <= i < j < |s| ==> s[i] != s[j]
  }

  predicate Between(lo: int, x: int, hi: int) { lo <= x <= hi }

  /** The numbers from `lo` to `hi`, both included. */
  function Interval(lo: nat, hi: nat): set<nat> {
    set x: nat | lo <= x <= hi && Between(lo, x, hi)
  }

  /** `s` with position `i` set to `v`; unchanged when `i` is out of range. */
  function Put<T>(s: seq<T>, i: int, v: T): seq<T> {
    if 0 <= i < |s| then s[i := v] else s
  }

  /** `s` without its first occurrence of `x`. */
  function Without<T(==)>(s: seq<T>, x: T): (r: seq<T>)
  {
    if s == [] then [] else if s[0] == x then s[1..] else [s[0]] + Without(s[1..], x)
  }

  lemma {:induction false} WithoutMembers<T>(s: seq<T>, x: T)
    requires NoDuplicates(s)
    ensures NoDuplicates(Without(s, x))
    ensures forall y :: y in Without(s, x) <==> y in s && y != x
  {
    if s == [] {
    } else if s[0] == x {
      assert s == [s[0]] + s[1..];
    } else {
      WithoutMembers(s[1..], x);
      assert s == [s[0]] + s[1..];
      var rest := Without(s[1..], x);
      assert s[0] !in rest;
      assert forall j :: 1 <= j < |[s[0]] + rest| ==> ([s[0]] + rest)[j] == rest[j - 1];
    }
  }

  lemma PrependMembers<T>(x: T, s: seq<T>)
    requires NoDuplicates(s) && x !in s
    ensures NoDuplicates([x] + s)
    ensures forall y :: y in [x] + s <==> y == x || y in s
  {
    var r := [x] + s;
    forall i, j | 0 <= i < j < |r| ensures r[i] != r[j] {
      assert r[j] == s[j - 1];
      if i > 0 { assert r[i] == s[i - 1]; }
    }
  }

  lemma {:induction false} WithoutIndex<T>(s: seq<T>, k: nat)
    requires NoDuplicates(s) && k < |s|
    ensures Without(s, s[k]) == s[..k] + s[k + 1..]
  {
    if k > 0 {
      WithoutIndex(s[1..], k - 1);
      assert s[..k] == [s[0]] + s[1..][..k - 1];
      assert s[1..][k..] == s[k + 1..];
    }
  }

  // ----- C strings

  const NUL: char := '\0'

  /** The characters of the C string that starts at `start`. */
  function CString(b: seq<char>, start: nat): string
    requires start <= |b|
    decreases |b| - start
  {
    if start == |b| || b[start] == NUL then "" else [b[start]] + CString(b, start + 1)
  }

  lemma {:induction false} CStringUpTo(b: seq<char>, start: nat, end: nat)
    requires start <= end < |b| && b[end] == NUL
    requires forall i :: start <= i < end ==> b[i] != NUL
    ensures CString(b, start) == b[start..end]
    decreases end - start
  {
    if start < end { CStringUpTo(b, start + 1, end); }
  }
}
