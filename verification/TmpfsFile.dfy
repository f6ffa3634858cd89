/** The growable file buffers of src/fs_tmpfs.c, which refine sequences of bytes. */
module TmpfsFile {
  import opened PowersOfTwo
  import opened Sequences
  import opened Errors

  type byte = bv8

  const DEFAULT_FILE_SIZE: nat := 4096

  datatype Whence = SeekSet | SeekCur | SeekEnd | SeekOther

  // ----- The file as its users see it

  /** Writing `bytes` at `pos` turns contents `before` into `after`. A gap that a seek left
      between the old end and `pos` is not determined. */
  ghost predicate Written(before: seq<byte>, pos: nat, bytes: seq<byte>, after: seq<byte>) {
    && |after| == Max(|before|, pos + |bytes|)
    && (forall i :: 0 <= i < |bytes| ==> after[pos + i] == bytes[i])
    && (forall i :: 0 <= i < |before| && !(pos <= i < pos + |bytes|) ==> after[i] == before[i])
  }

  /** What a read of `len` bytes at `pos` returns. */
  function ReadAt(contents: seq<byte>, pos: nat, len: nat): seq<byte> {
    if pos >= |contents| then [] else contents[pos..Min(pos + len, |contents|)]
  }

  /** The position that a seek asks for. */
  function SeekTarget(size: nat, pos: nat, offset: int, whence: Whence): int {
    match whence
    case SeekSet => offset
    case SeekCur => pos + offset
    case SeekEnd => size + offset
    case SeekOther => -1
  }

  /** The capacity after doubling `capacity` until it holds `required` bytes. */
  function Doubled(capacity: nat, required: nat): (r: nat)
    requires capacity > 0
    ensures r >= required && r >= capacity
    ensures r == capacity || r < 2 * required
    decreases required - capacity
  {
    if capacity >= required then capacity else Doubled(2 * capacity, required)
  }

  /** The buffer sizes that occur: the initial size times a power of two. */
  ghost predicate Sized(capacity: nat) {
    exists k: nat :: capacity == DEFAULT_FILE_SIZE * Pow2(k)
  }

  lemma {:induction false} DoubledSized(capacity: nat, required: nat)
    requires capacity > 0 && Sized(capacity)
    ensures Sized(Doubled(capacity, required))
    decreases required - capacity
  {
    if capacity < required {
      var k: nat :| capacity == DEFAULT_FILE_SIZE * Pow2(k);
      assert 2 * capacity == DEFAULT_FILE_SIZE * Pow2(k + 1);
      DoubledSized(2 * capacity, required);
    }
  }

  // ----- A log of writes

  /** A successful write: where, and what. */
  datatype Entry = Entry(pos: nat, bytes: seq<byte>)

  /** The byte that the last write covering position `i` stored there. */
  function LastByte(log: seq<Entry>, i: nat): Option<byte> {
    if log == [] then None
    else
      var e := log[|log| - 1];
      if e.pos <= i < e.pos + |e.bytes| then Some(e.bytes[i - e.pos]) else LastByte(log[..|log| - 1], i)
  }

  /** The end of the furthest write. */
  function LogEnd(log: seq<Entry>): nat {
    if log == [] then 0
    else Max(LogEnd(log[..|log| - 1]), log[|log| - 1].pos + |log[|log| - 1].bytes|)
  }

  /** The file is as long as its furthest write, and holds the last byte written everywhere. */
  ghost predicate Reflects(contents: seq<byte>, log: seq<Entry>) {
    && |contents| == LogEnd(log)
    && forall i: nat {:trigger LastByte(log, i)} :: i < |contents| && LastByte(log, i).Some? ==> contents[i] == LastByte(log, i).value
  }

  lemma {:induction false} LogBytesInside(log: seq<Entry>, i: nat)
    ensures LastByte(log, i).Some? ==> i < LogEnd(log)
  {
    if log != [] { LogBytesInside(log[..|log| - 1], i); }
  }

  lemma WriteReflects(before: seq<byte>, log: seq<Entry>, pos: nat, bytes: seq<byte>, after: seq<byte>)
    requires Reflects(before, log) && Written(before, pos, bytes, after)
    ensures Reflects(after, log + [Entry(pos, bytes)])
  {
    var log' := log + [Entry(pos, bytes)];
    assert log'[..|log'| - 1] == log;
    forall i: nat | i < |after| && LastByte(log', i).Some? ensures after[i] == LastByte(log', i).value {
      if pos <= i < pos + |bytes| {
        assert after[pos + (i - pos)] == bytes[i - pos];
      } else {
        LogBytesInside(log, i);
      }
    }
  }

  // ----- Every run, through several handles

  /** What users can observe: the contents, the position of every handle, and the log. */
  datatype State = State(contents: seq<byte>, pos: seq<nat>, log: seq<Entry>)

  datatype Op =
    | DoWrite(handle: nat, bytes: seq<byte>, code: int)
    | DoRead(handle: nat, len: nat, result: seq<byte>)
    | DoSeek(handle: nat, offset: int, whence: Whence, code: int)

  ghost predicate Step(s: State, op: Op, t: State) {
    op.handle < |s.pos| &&
    var p := s.pos[op.handle];
    match op
    case DoWrite(h, bytes, code) =>
      if bytes == [] then code == 0 && t == s
      else if code == ENOMEM then t == s
      else
        && code == |bytes| && Written(s.contents, p, bytes, t.contents)
        && t.pos == s.pos[h := p + |bytes|] && t.log == s.log + [Entry(p, bytes)]
    case DoRead(h, len, result) =>
      result == ReadAt(s.contents, p, len) && t == s.(pos := s.pos[h := p + |result|])
    case DoSeek(h, offset, whence, code) =>
      var target := SeekTarget(|s.contents|, p, offset, whence);
      if whence == SeekOther || target < 0 then code == EINVAL && t == s
      else code == target && t == s.(pos := s.pos[h := target])
  }

  /** `states` is a run of `ops`. */
  ghost predicate Run(states: seq<State>, ops: seq<Op>) {
    |states| == |ops| + 1 && forall i :: 0 <= i < |ops| ==> Step(states[i], ops[i], states[i + 1])
  }

  lemma {:induction false} RunReflects(states: seq<State>, ops: seq<Op>, k: nat)
    requires Run(states, ops) && k < |states| && Reflects(states[0].contents, states[0].log)
    ensures Reflects(states[k].contents, states[k].log)
  {
    if k > 0 {
      RunReflects(states, ops, k - 1);
      var s, op, t := states[k - 1], ops[k - 1], states[k];
      assert Step(s, op, t);
      if op.DoWrite? && op.code != ENOMEM && op.bytes != [] {
        WriteReflects(s.contents, s.log, s.pos[op.handle], op.bytes, t.contents);
      }
    }
  }

  /** Over any interleaving of writes, reads and seeks through several handles of a new file,
      a read returns, at every position that was ever written, the byte of the last write that
      covered it; and it stops exactly at the end of the furthest write. */
  lemma ReadsReturnLastWrites(states: seq<State>, ops: seq<Op>, k: nat, i: nat)
    requires Run(states, ops) && k < |ops| && ops[k].DoRead?
    requires states[0].contents == [] && states[0].log == []
    ensures ops[k].handle < |states[k].pos|
    ensures var p := states[k].pos[ops[k].handle]; var r := ops[k].result; var log := states[k].log;
      && (p < LogEnd(log) ==> |r| == Min(ops[k].len, LogEnd(log) - p))
      && (p >= LogEnd(log) ==> r == [])
      && (i < |r| && LastByte(log, p + i).Some? ==> r[i] == LastByte(log, p + i).value)
  {
    assert Step(states[k], ops[k], states[k + 1]);
    assert Reflects([], []);
    RunReflects(states, ops, k);
    var p := states[k].pos[ops[k].handle];
    if i < |ops[k].result| { assert ops[k].result[i] == states[k].contents[p + i]; }
  }

  // ----- Positions

  /** A seek to the end by 0: a read then finds nothing, and a write appends. */
  lemma SeekToEnd(s: State, h: nat, t: State, u: State, op: Op, code: int)
    requires Step(s, DoSeek(h, 0, SeekEnd, code), t) && Step(t, op, u)
    ensures code == |s.contents| && t.contents == s.contents && h < |t.pos| && t.pos[h] == |s.contents|
    ensures op.DoRead? && op.handle == h ==> op.result == []
    ensures op.DoWrite? && op.handle == h && op.code == |op.bytes| > 0 ==> u.contents == s.contents + op.bytes
  {
    if op.DoWrite? && op.handle == h && op.code == |op.bytes| > 0 {
      assert forall i :: 0 <= i < |op.bytes| ==> u.contents[|s.contents| + i] == op.bytes[i];
    }
  }

  /** A seek to an absolute position: a read then starts there; and a relative seek adds to it. */
  lemma SeekFromStart(s: State, h: nat, p: nat, d: int, t: State, u: State, v: State, len: nat, result: seq<byte>, c1: int, c2: int)
    requires Step(s, DoSeek(h, p, SeekSet, c1), t) && Step(t, DoSeek(h, d, SeekCur, c2), u) && Step(u, DoRead(h, len, result), v)
    requires p + d >= 0
    ensures c1 == p && c2 == p + d && u.contents == s.contents
    ensures forall i :: 0 <= i < |result| ==> p + d + i < |s.contents| && result[i] == s.contents[p + d + i]
    ensures p + d <= |s.contents| ==> |result| == Min(len, |s.contents| - (p + d))
  {
  }

  /** A seek that would go before the start, or with an unknown mode, is refused. */
  lemma SeekRefused(s: State, h: nat, offset: int, whence: Whence, t: State, code: int)
    requires Step(s, DoSeek(h, offset, whence, code), t)
    requires match whence
      case SeekSet => offset < 0
      case SeekCur => s.pos[h] + offset < 0
      case SeekEnd => |s.contents| + offset < 0
      case SeekOther => true
    ensures code == EINVAL && t == s
  {
  }

  /** Reading on: two reads through a handle give what one read of both lengths gives. */
  lemma ReadsCompose(s: State, h: nat, t: State, u: State, v: State, a: nat, b: nat, x: seq<byte>, y: seq<byte>, z: seq<byte>)
    requires Step(s, DoRead(h, a, x), t) && Step(t, DoRead(h, b, y), u) && Step(s, DoRead(h, a + b, z), v)
    ensures z == x + y && u.pos == v.pos
  {
  }

  /** Writing on: two writes through a handle leave what one write of both leaves, where no gap
      was open, and the same positions. */
  lemma WritesCompose(s: State, h: nat, t: State, u: State, v: State, x: seq<byte>, y: seq<byte>)
    requires x != [] && y != [] && h < |s.pos| && s.pos[h] <= |s.contents|
    requires Step(s, DoWrite(h, x, |x|), t) && Step(t, DoWrite(h, y, |y|), u) && Step(s, DoWrite(h, x + y, |x + y|), v)
    ensures u.contents == v.contents && u.pos == v.pos
  {
    var p := s.pos[h];
    assert |u.contents| == |v.contents|;
    forall i | 0 <= i < |u.contents| ensures u.contents[i] == v.contents[i] {
      if p <= i < p + |x| {
        assert t.contents[p + (i - p)] == x[i - p] && v.contents[p + (i - p)] == (x + y)[i - p];
      } else if p + |x| <= i < p + |x| + |y| {
        assert u.contents[p + |x| + (i - p - |x|)] == y[i - p - |x|];
        assert v.contents[p + (i - p)] == (x + y)[i - p];
      }
    }
  }

  // ----- The buffer

  /** An open file handle. */
  class Handle {
    var pos: nat

    constructor ()
      ensures pos == 0
    {
      pos := 0;
    }
  }

  class File {
    var data: array<byte>
    var size: nat

    ghost predicate Valid()
      reads this
    {
      size <= data.Length && Sized(data.Length)
    }

    ghost function Contents(): seq<byte>
      reads this, data
      requires Valid()
    {
      data[..size]
    }

    constructor ()
      ensures Valid() && Contents() == [] && fresh(data) && data.Length == DEFAULT_FILE_SIZE
    {
      data := new byte[DEFAULT_FILE_SIZE];
      size := 0;
      new;
      assert DEFAULT_FILE_SIZE == DEFAULT_FILE_SIZE * Pow2(0);
    }

    /** memcpy of `bytes` to `data + at`. */
    method Store(at: nat, bytes: seq<byte>)
      requires at + |bytes| <= data.Length
      modifies data
      ensures forall i :: 0 <= i < data.Length ==> data[i] == if at <= i < at + |bytes| then bytes[i - at] else old(data[i])
    {
      for j := 0 to |bytes|
        invariant forall i :: 0 <= i < data.Length ==> data[i] == if at <= i < at + j then bytes[i - at] else old(data[i])
      {
        data[at + j] := bytes[j];
      }
    }

    /** The reallocation of tmpfs_write; `memory` is whether the new buffer could be had. */
    method Grow(required: nat, memory: bool) returns (ok: bool)
      requires Valid() && required > data.Length
      modifies this`data
      ensures ok == memory && (!ok ==> data == old(data))
      ensures ok ==> fresh(data) && data.Length == Doubled(old(data.Length), required)
      ensures Valid() && size == old(size) && Contents() == old(Contents())
    {
      SizedPositive(data.Length);
      DoubledSized(data.Length, required);
      var capacity := data.Length;
      while capacity < required
        invariant capacity > 0 && Doubled(capacity, required) == Doubled(data.Length, required)
        decreases required - capacity
      {
        capacity := capacity * 2;
      }
      if !memory { return false; }
      var buffer := new byte[capacity];
      for i := 0 to size
        invariant data == old(data) && size <= data.Length && fresh(buffer)
        invariant forall j :: 0 <= j < i ==> buffer[j] == data[j]
        invariant forall j :: 0 <= j < data.Length ==> data[j] == old(data[j])
      {
        buffer[i] := data[i];
      }
      data := buffer;
      ok := true;
    }

    /** The end of tmpfs_write, once the buffer is large enough. */
    method StoreAt(h: Handle, bytes: seq<byte>)
      requires Valid() && h.pos + |bytes| <= data.Length && bytes != []
      modifies this`size, data, h
      ensures Valid() && h.pos == old(h.pos) + |bytes|
      ensures Written(old(Contents()), old(h.pos), bytes, Contents())
    {
      hide Sized;
      ghost var before := Contents();
      Store(h.pos, bytes);
      h.pos := h.pos + |bytes|;
      if h.pos > size { size := h.pos; }
      ghost var after := Contents();
      assert forall i :: 0 <= i < |before| ==> before[i] == old(data[i]);
      assert forall i :: 0 <= i < |after| ==> after[i] == data[i];
    }

    /** tmpfs_write. */
    method Write(h: Handle, bytes: seq<byte>, memory: bool) returns (code: int)
      requires Valid()
      modifies this, data, h
      ensures Valid() && (data == old(data) || fresh(data))
      ensures bytes == [] ==> code == 0
      ensures code == ENOMEM <==> bytes != [] && !memory && old(h.pos) + |bytes| > old(data.Length)
      ensures code == ENOMEM || bytes == [] ==>
        h.pos == old(h.pos) && Contents() == old(Contents()) && data == old(data)
      ensures code != ENOMEM && bytes != [] ==>
        && code == |bytes| && h.pos == old(h.pos) + |bytes|
        && Written(old(Contents()), old(h.pos), bytes, Contents())
    {
      if bytes == [] { return 0; }
      if h.pos + |bytes| > data.Length {
        var ok := Grow(h.pos + |bytes|, memory);
        if !ok { return ENOMEM; }
      }
      hide Sized, Written;
      StoreAt(h, bytes);
      code := |bytes|;
    }

    /** tmpfs_read. */
    method Read(h: Handle, len: nat) returns (result: seq<byte>)
      requires Valid()
      modifies h
      ensures result == ReadAt(Contents(), old(h.pos), len) && h.pos == old(h.pos) + |result|
    {
      if len == 0 { return []; }
      if h.pos >= size { return []; }
      var readable := len;
      if h.pos + len > size { readable := size - h.pos; }
      result := data[h.pos..h.pos + readable];
      assert result == Contents()[h.pos..h.pos + readable];
      h.pos := h.pos + readable;
    }

    /** tmpfs_lseek64. */
    method Lseek(h: Handle, offset: int, whence: Whence) returns (code: int)
      requires Valid()
      modifies h
      ensures whence == SeekSet && offset >= 0 ==> code == h.pos == offset
      ensures whence == SeekCur && old(h.pos) + offset >= 0 ==> code == h.pos == old(h.pos) + offset
      ensures whence == SeekEnd && |Contents()| + offset >= 0 ==> code == h.pos == |Contents()| + offset
      ensures whence == SeekSet && offset < 0 ==> code == EINVAL && h.pos == old(h.pos)
      ensures whence == SeekCur && old(h.pos) + offset < 0 ==> code == EINVAL && h.pos == old(h.pos)
      ensures whence == SeekEnd && |Contents()| + offset < 0 ==> code == EINVAL && h.pos == old(h.pos)
      ensures whence == SeekOther ==> code == EINVAL && h.pos == old(h.pos)
    {
      var target: int;
      match whence {
        case SeekSet => target := offset;
        case SeekCur => target := h.pos + offset;
        case SeekEnd => target := size + offset;
        case SeekOther => return EINVAL;
      }
      if target < 0 { return EINVAL; }
      h.pos := target;
      code := target;
    }
  }

  lemma SizedPositive(capacity: nat)
    requires Sized(capacity)
    ensures capacity >= DEFAULT_FILE_SIZE
  {
  }
}
