/**
 The archive walk of src/cpio.c over the "New ASCII Format" of cpio(5). The archive is a string
 of bytes; the header pointer is an offset into it.
 */
module Cpio {
  import opened Sequences

  const MAGIC: string := "070701"
  const TRAILER: string := "TRAILER!!!"
  const HEADER_SIZE: nat := 110
  const SIZE_FIELD: nat := 54     // c_filesize in the header
  const NAME_FIELD: nat := 94     // c_namesize in the header
  const WORD: nat := 0x1_0000_0000

  // ----- Hexadecimal fields

  function DigitValue(c: char): nat {
    if '0' <= c <= '9' then c as nat - '0' as nat
    else if 'a' <= c <= 'f' then c as nat - 'a' as nat + 10
    else if 'A' <= c <= 'F' then c as nat - 'A' as nat + 10
    else 0
  }

  /** hex_to_uint on 32-bit words: the value after all of `s`, from the left. */
  function HexToUint(s: string): nat {
    if s == "" then 0
    else (HexToUint(s[..|s| - 1]) * 16 % WORD + DigitValue(s[|s| - 1])) % WORD
  }

  function Digit(d: nat): char
    requires d < 16
  {
    "0123456789ABCDEF"[d]
  }

  /** `n` in exactly `k` hexadecimal digits. */
  function HexDigits(n: nat, k: nat): (s: string)
    ensures |s| == k
  {
    if k == 0 then "" else HexDigits(n / 16, k - 1) + [Digit(n % 16)]
  }

  function Power16(k: nat): (p: nat)
    ensures p > 0
  {
    if k == 0 then 1 else 16 * Power16(k - 1)
  }

  predicate IsHex(c: char) {
    '0' <= c <= '9' || 'a' <= c <= 'f' || 'A' <= c <= 'F'
  }

  /** `s` spells `n` in hexadecimal digits of either case. */
  predicate Spells(s: string, n: nat) {
    if s == "" then n == 0
    else IsHex(s[|s| - 1]) && DigitValue(s[|s| - 1]) == n % 16 && Spells(s[..|s| - 1], n / 16)
  }

  lemma DigitSpells(d: nat)
    requires d < 16
    ensures IsHex(Digit(d)) && DigitValue(Digit(d)) == d
  {
    var digits := "0123456789ABCDEF";
    assert digits[d] == if d < 10 then '0' + d as char else 'A' + (d - 10) as char;
  }

  lemma {:induction false} HexDigitsSpell(n: nat, k: nat)
    requires n < Power16(k)
    ensures Spells(HexDigits(n, k), n)
  {
    hide Digit, DigitValue, IsHex;
    if k > 0 {
      HexDigitsSpell(n / 16, k - 1);
      DigitSpells(n % 16);
      var s := HexDigits(n, k);
      assert s[..|s| - 1] == HexDigits(n / 16, k - 1);
    }
  }

  /** The arithmetic of one digit: nothing wraps while the number fits. */
  lemma DigitFits(high: nat, d: nat)
    requires high * 16 + d < WORD
    ensures (high * 16 % WORD + d) % WORD == high * 16 + d
  {
  }

  /** Any number spelt in up to eight digits is read back. */
  lemma {:induction false} HexRoundTrip(s: string, n: nat)
    requires |s| <= 8 && Spells(s, n)
    ensures n < Power16(|s|) && HexToUint(s) == n
  {
    hide DigitValue, IsHex;
    if s != "" {
      HexRoundTrip(s[..|s| - 1], n / 16);
      Power16Bound(|s|);
      DigitFits(n / 16, n % 16);
    }
  }

  lemma {:induction false} Power16Bound(k: nat)
    requires k <= 8
    ensures Power16(k) <= WORD
  {
    Power16Is();
    PowerMonotone(k, 8);
  }

  lemma Power16Is()
    ensures Power16(8) == WORD
  {
    assert Power16(2) == 256 && Power16(4) == 65536 && Power16(6) == 0x100_0000;
  }

  lemma {:induction false} PowerMonotone(j: nat, k: nat)
    requires j <= k
    ensures Power16(j) <= Power16(k)
  {
    if j < k { PowerMonotone(j, k - 1); }
  }

  method HexToUintLoop(s: string) returns (result: nat)
    ensures result == HexToUint(s)
  {
    result := 0;
    var i := 0;
    while i < |s|
      invariant 0 <= i <= |s| && result == HexToUint(s[..i])
    {
      assert s[..i + 1][..i] == s[..i];
      result := result * 16 % WORD;
      result := (result + DigitValue(s[i])) % WORD;
      i := i + 1;
    }
    assert s[..i] == s;
  }

  // ----- The format

  /** align(n, 4). */
  function Align4(n: nat): (r: nat)
    ensures n <= r < n + 4 && r % 4 == 0
  {
    (n + 3) / 4 * 4
  }

  /** One member of an archive, header fields in their order; fields that the walk does not read
      are kept together. */
  datatype Entry = Entry(before: string, sizeField: string, between: string, nameField: string, check: string,
                         name: string, namePad: string, data: string, dataPad: string)

  ghost predicate EntryOk(e: Entry) {
    && |e.before| == 48 && |e.sizeField| == 8 && |e.between| == 32 && |e.nameField| == 8 && |e.check| == 8
    && NUL !in e.name && |e.name| < 256 && |e.data| <= WORD - 4
    && HexToUint(e.sizeField) == |e.data| && HexToUint(e.nameField) == |e.name| + 1
    && HEADER_SIZE + |e.name| + 1 + |e.namePad| == Align4(HEADER_SIZE + |e.name| + 1)
    && |e.data| + |e.dataPad| == Align4(|e.data|)
  }

  function Header(e: Entry): string {
    MAGIC + e.before + e.sizeField + e.between + e.nameField + e.check
  }

  function Encode(e: Entry): string {
    Header(e) + (e.name + [NUL]) + e.namePad + e.data + e.dataPad
  }

  function EncodeAll(es: seq<Entry>): string {
    if es == [] then "" else Encode(es[0]) + EncodeAll(es[1..])
  }

  ghost predicate Trailer(end: string, t: Entry, rest: string) {
    EntryOk(t) && t.name == TRAILER && end == Encode(t) + rest
  }

  /** The walk stops at a trailer, whatever follows it, or at bytes that are no header. */
  ghost predicate Stops(end: string) {
    |end| >= 6 && (end[..6] == MAGIC ==> exists t, rest :: Trailer(end, t, rest))
  }

  /** `a` has the members `es`, none of them called like the trailer, and then `end`. */
  ghost predicate Archive(a: string, es: seq<Entry>, end: string) {
    && (forall i :: 0 <= i < |es| ==> EntryOk(es[i]) && es[i].name != TRAILER)
    && Stops(end)
    && a == EncodeAll(es) + end
  }

  /** A member as an archive writer makes it: sizes in eight digits, padding to four bytes. */
  function Pack(name: string, data: string): Entry {
    var size := HEADER_SIZE + |name| + 1;
    Entry(seq(48, _ => '0'), HexDigits(|data|, 8), seq(32, _ => '0'), HexDigits(|name| + 1, 8), seq(8, _ => '0'),
          name, seq(Align4(size) - size, _ => NUL), data, seq(Align4(|data|) - |data|, _ => NUL))
  }

  lemma PackOk(name: string, data: string)
    requires NUL !in name && |name| < 256 && |data| <= WORD - 4
    ensures EntryOk(Pack(name, data))
  {
    Power16Is();
    HexDigitsSpell(|data|, 8);
    HexDigitsSpell(|name| + 1, 8);
    HexRoundTrip(HexDigits(|data|, 8), |data|);
    HexRoundTrip(HexDigits(|name| + 1, 8), |name| + 1);
    hide HexToUint, HexDigits, Align4, Power16, Spells;
  }

  /** Where member `i` starts; for i == |es|, where the members end. */
  function OffsetOf(es: seq<Entry>, i: nat): nat
    requires i <= |es|
  {
    if i == 0 then 0 else |Encode(es[0])| + OffsetOf(es[1..], i - 1)
  }

  /** The first member with this name, or |es|. */
  function First(es: seq<Entry>, name: string): (i: nat)
    ensures i <= |es|
    ensures i < |es| ==> es[i].name == name
    ensures forall j :: 0 <= j < i ==> es[j].name != name
  {
    if es == [] || es[0].name == name then 0 else 1 + First(es[1..], name)
  }

  // ----- What the walk reads

  /** A header at offset `o`: the magic, the two sizes, the name, and where the data start. */
  ghost predicate HeaderAt(a: string, o: nat, e: Entry) {
    && o + |Encode(e)| <= |a|
    && |Encode(e)| == Align4(HEADER_SIZE + |e.name| + 1) + Align4(|e.data|)
    && a[o..o + 6] == MAGIC
    && a[o + SIZE_FIELD..o + SIZE_FIELD + 8] == e.sizeField
    && a[o + NAME_FIELD..o + NAME_FIELD + 8] == e.nameField
    && a[o + HEADER_SIZE..o + HEADER_SIZE + |e.name| + 1] == e.name + [NUL]
    && var d := o + Align4(HEADER_SIZE + |e.name| + 1);
       d + |e.data| <= |a| && a[d..d + |e.data|] == e.data
  }

  /** A slice of a concatenation. */
  lemma SliceOf(left: string, middle: string, right: string, lo: nat)
    requires lo == |left|
    ensures (left + middle + right)[lo..lo + |middle|] == middle
  {
  }

  /** The same slice, seen from inside and from outside. */
  lemma SliceInside(left: string, middle: string, right: string, lo: nat, hi: nat)
    requires lo <= hi <= |middle|
    ensures (left + middle + right)[|left| + lo..|left| + hi] == middle[lo..hi]
  {
  }

  lemma HeaderFields(e: Entry)
    requires EntryOk(e)
    ensures var h := Header(e);
      && |h| == HEADER_SIZE && h[0..6] == MAGIC
      && h[SIZE_FIELD..SIZE_FIELD + 8] == e.sizeField && h[NAME_FIELD..NAME_FIELD + 8] == e.nameField
  {
    hide HexToUint, Align4;
    var h := Header(e);
    SliceOf(MAGIC + e.before, e.sizeField, e.between + e.nameField + e.check, SIZE_FIELD);
    assert h == (MAGIC + e.before) + e.sizeField + (e.between + e.nameField + e.check);
    SliceOf(MAGIC + e.before + e.sizeField + e.between, e.nameField, e.check, NAME_FIELD);
  }

  lemma EncodedSize(e: Entry)
    requires EntryOk(e)
    ensures |Encode(e)| == Align4(HEADER_SIZE + |e.name| + 1) + Align4(|e.data|)
    ensures |Encode(e)| >= HEADER_SIZE
  {
    HeaderFields(e);
    hide Header, HexToUint;
  }

  lemma EncodedHeader(e: Entry, lo: nat, hi: nat)
    requires EntryOk(e) && lo <= hi <= HEADER_SIZE
    ensures |Header(e)| == HEADER_SIZE && HEADER_SIZE <= |Encode(e)|
    ensures Encode(e)[lo..hi] == Header(e)[lo..hi]
  {
    HeaderFields(e);
    hide Header, HexToUint, Align4, EntryOk;
    var body := e.name + [NUL] + e.namePad + e.data + e.dataPad;
    assert Encode(e) == "" + Header(e) + body;
    SliceInside("", Header(e), body, lo, hi);
  }

  lemma EncodedBody(e: Entry)
    requires EntryOk(e)
    ensures var d := Align4(HEADER_SIZE + |e.name| + 1);
      && d + |e.data| <= |Encode(e)| && HEADER_SIZE + |e.name| + 1 <= |Encode(e)|
      && Encode(e)[HEADER_SIZE..HEADER_SIZE + |e.name| + 1] == e.name + [NUL]
      && Encode(e)[d..d + |e.data|] == e.data
  {
    HeaderFields(e);
    EncodedSize(e);
    hide Header, HexToUint, Align4;
    var h := Header(e);
    SliceOf(h, e.name + [NUL], e.namePad + e.data + e.dataPad, HEADER_SIZE);
    assert Encode(e) == h + (e.name + [NUL]) + (e.namePad + e.data + e.dataPad);
    var left := h + (e.name + [NUL]) + e.namePad;
    SliceOf(left, e.data, e.dataPad, |left|);
  }

  /** The header of a member is read off the archive where the member starts. */
  lemma ReadHeader(a: string, before: string, e: Entry, after: string)
    requires EntryOk(e) && a == before + Encode(e) + after
    ensures HeaderAt(a, |before|, e)
  {
    EncodedSize(e);
    HeaderFields(e);
    EncodedBody(e);
    EncodedHeader(e, 0, 6);
    EncodedHeader(e, SIZE_FIELD, SIZE_FIELD + 8);
    EncodedHeader(e, NAME_FIELD, NAME_FIELD + 8);
    hide Header, Encode, HexToUint, Align4, EntryOk;
    var m := Encode(e);
    SliceInside(before, m, after, 0, 6);
    SliceInside(before, m, after, SIZE_FIELD, SIZE_FIELD + 8);
    SliceInside(before, m, after, NAME_FIELD, NAME_FIELD + 8);
    SliceInside(before, m, after, HEADER_SIZE, HEADER_SIZE + |e.name| + 1);
    var d := Align4(HEADER_SIZE + |e.name| + 1);
    SliceInside(before, m, after, d, d + |e.data|);
  }

  lemma {:induction false} MemberStarts(es: seq<Entry>, i: nat) returns (before: string, after: string)
    requires i < |es|
    ensures EncodeAll(es) == before + Encode(es[i]) + after && |before| == OffsetOf(es, i)
    ensures OffsetOf(es, i + 1) == OffsetOf(es, i) + |Encode(es[i])|
  {
    hide Encode;
    if i == 0 {
      before, after := "", EncodeAll(es[1..]);
      assert OffsetOf(es[1..], 0) == 0;
    } else {
      before, after := MemberStarts(es[1..], i - 1);
      before := Encode(es[0]) + before;
    }
  }

  lemma {:induction false} MembersEnd(es: seq<Entry>)
    ensures |EncodeAll(es)| == OffsetOf(es, |es|)
  {
    hide Encode;
    if es != [] { MembersEnd(es[1..]); }
  }

  /** What an archive writer makes of names and data is an archive, whatever follows it. */
  lemma PackedArchive(files: seq<(string, string)>, rest: string)
    requires forall i :: 0 <= i < |files| ==>
      NUL !in files[i].0 && |files[i].0| < 256 && files[i].0 != TRAILER && |files[i].1| <= WORD - 4
    ensures var es := seq(|files|, i requires 0 <= i < |files| => Pack(files[i].0, files[i].1));
      var end := Encode(Pack(TRAILER, "")) + rest;
      Archive(EncodeAll(es) + end, es, end)
  {
    var t := Pack(TRAILER, "");
    PackOk(TRAILER, "");
    EncodedSize(t);
    forall i | 0 <= i < |files| ensures EntryOk(Pack(files[i].0, files[i].1)) {
      PackOk(files[i].0, files[i].1);
    }
    hide EntryOk, Encode, EncodeAll;
    assert Trailer(Encode(t) + rest, t, rest);
  }

  /** What the walk finds after `i` members: member `i` or what ends the archive. */
  ghost predicate Found(a: string, es: seq<Entry>, i: nat, o: nat, e: Entry)
    requires i <= |es|
  {
    && o == OffsetOf(es, i) && o + 6 <= |a|
    && (a[o..o + 6] == MAGIC ==> EntryOk(e) && HeaderAt(a, o, e) && (e.name == TRAILER <==> i == |es|))
    && (i < |es| ==> a[o..o + 6] == MAGIC && e == es[i] && o + |Encode(e)| == OffsetOf(es, i + 1))
  }

  lemma FindMember(a: string, es: seq<Entry>, end: string, i: nat)
    requires Archive(a, es, end) && i < |es|
    ensures Found(a, es, i, OffsetOf(es, i), es[i])
  {
    var before, after := ArchiveAt(a, es, end, i);
    ReadHeader(a, before, es[i], after);
    EncodedSize(es[i]);
    hide Encode, EncodeAll, OffsetOf, EntryOk, HexToUint, Archive, Align4;
  }

  lemma ArchiveAt(a: string, es: seq<Entry>, end: string, i: nat) returns (before: string, after: string)
    requires Archive(a, es, end) && i < |es|
    ensures EntryOk(es[i]) && es[i].name != TRAILER
    ensures a == before + Encode(es[i]) + after && |before| == OffsetOf(es, i)
    ensures OffsetOf(es, i + 1) == OffsetOf(es, i) + |Encode(es[i])|
  {
    before, after := MemberStarts(es, i);
    hide Encode, EncodeAll, OffsetOf, EntryOk, Stops;
    assert before + Encode(es[i]) + after + end == before + Encode(es[i]) + (after + end);
    after := after + end;
  }

  lemma FindEnd(a: string, es: seq<Entry>, end: string) returns (t: Entry)
    requires Archive(a, es, end)
    ensures Found(a, es, |es|, OffsetOf(es, |es|), t)
  {
    MembersEnd(es);
    hide Encode, EncodeAll, OffsetOf, EntryOk, HexToUint, HeaderAt;
    var before := EncodeAll(es);
    var o := |before|;
    assert a[o..o + 6] == end[..6];
    t := Entry("", "", "", "", "", "", "", "", "");
    if end[..6] == MAGIC {
      var t', rest :| Trailer(end, t', rest);
      t := t';
      assert a == before + Encode(t) + rest;
      ReadHeader(a, before, t, rest);
    }
  }

  lemma Find(a: string, es: seq<Entry>, end: string, i: nat) returns (e: Entry)
    requires Archive(a, es, end) && i <= |es|
    ensures Found(a, es, i, OffsetOf(es, i), e)
  {
    hide Archive, Found, OffsetOf;
    if i < |es| {
      FindMember(a, es, end, i);
      e := es[i];
    } else {
      e := FindEnd(a, es, end);
    }
  }

  // ----- The walks

  /** The name size and the name of the member whose header is at `header`. */
  method ReadName(a: string, header: nat, ghost e: Entry) returns (filenamesize: nat, filename: string)
    requires EntryOk(e) && HeaderAt(a, header, e)
    ensures filenamesize == |e.name| + 1 && filename == e.name
  {
    EncodedSize(e);
    hide HexToUint, Encode, Align4;
    filenamesize := HexToUintLoop(a[header + NAME_FIELD..header + NAME_FIELD + 8]);
    var start := header + HEADER_SIZE;
    filename := CString(a[start..start + filenamesize], 0);
    CStringUpTo(e.name + [NUL], 0, |e.name|);
  }

  method ReadSize(a: string, header: nat, ghost e: Entry) returns (filesize: nat)
    requires EntryOk(e) && HeaderAt(a, header, e)
    ensures filesize == |e.data|
  {
    EncodedSize(e);
    hide HexToUint, Encode, Align4;
    filesize := HexToUintLoop(a[header + SIZE_FIELD..header + SIZE_FIELD + 8]);
  }

  /** The jump to the next header. */
  method NextHeader(a: string, header: nat, namesize: nat, ghost e: Entry) returns (next: nat)
    requires EntryOk(e) && HeaderAt(a, header, e) && namesize == |e.name| + 1
    ensures next == header + |Encode(e)|
  {
    hide HexToUint, Encode;
    var filesize := ReadSize(a, header, e);
    var filenamesize := Align4(HEADER_SIZE + namesize) - HEADER_SIZE;
    filesize := Align4(filesize);
    next := header + HEADER_SIZE + filenamesize + filesize;
  }

  /** cpio_list: the names, in the order of the archive. */
  method CpioList(a: string, ghost es: seq<Entry>, ghost end: string) returns (listed: seq<string>)
    requires Archive(a, es, end)
    ensures |listed| == |es| && forall j :: 0 <= j < |es| ==> listed[j] == es[j].name
  {
    hide Archive, EntryOk, HeaderAt, OffsetOf, Encode;
    var header := 0;
    listed := [];
    ghost var i := 0;
    StartsAtZero(es);
    while true
      invariant i <= |es| && header == OffsetOf(es, i)
      invariant |listed| == i && forall j :: 0 <= j < i ==> listed[j] == es[j].name
      decreases |es| - i
    {
      ghost var e := Find(a, es, end, i);
      if a[header..header + 6] != MAGIC { break; }
      var filenamesize, filename := ReadName(a, header, e);
      if filename == TRAILER { break; }
      listed := listed + [filename];
      header := NextHeader(a, header, filenamesize, e);
      i := i + 1;
    }
  }

  lemma StartsAtZero(es: seq<Entry>)
    ensures OffsetOf(es, 0) == 0
  {
  }

  /** cpio_get_file_size: the size of the first member with this name, 0 when there is none. */
  method CpioGetFileSize(a: string, target: string, ghost es: seq<Entry>, ghost end: string) returns (size: nat)
    requires Archive(a, es, end)
    ensures First(es, target) < |es| ==> size == |es[First(es, target)].data|
    ensures First(es, target) == |es| ==> size == 0
  {
    hide Archive, EntryOk, HeaderAt, OffsetOf, Encode, First;
    var header := 0;
    ghost var i := 0;
    StartsAtZero(es);
    while true
      invariant i <= First(es, target) && header == OffsetOf(es, i)
      decreases |es| - i
    {
      ghost var e := Find(a, es, end, i);
      if a[header..header + 6] != MAGIC { break; }
      var filenamesize, filename := ReadName(a, header, e);
      if filename == TRAILER { break; }
      if filename == target {
        size := ReadSize(a, header, e);
        return;
      }
      header := NextHeader(a, header, filenamesize, e);
      i := i + 1;
    }
    size := 0;
  }

  /** Where the data of member `i` start. */
  function DataOf(es: seq<Entry>, i: nat): nat
    requires i < |es|
  {
    OffsetOf(es, i) + Align4(HEADER_SIZE + |es[i].name| + 1)
  }

  /** The data of a member lie where DataOf says. */
  lemma DataSlice(a: string, es: seq<Entry>, end: string, i: nat)
    requires Archive(a, es, end) && i < |es|
    ensures DataOf(es, i) + |es[i].data| <= |a|
    ensures a[DataOf(es, i)..DataOf(es, i) + |es[i].data|] == es[i].data
  {
    hide Archive, EntryOk, OffsetOf, Encode, Align4;
    FindMember(a, es, end, i);
  }

  /** cpio_get_exec: the address of the data of the first member with this name, which are also
      copied to `exec` when there is one. For an absent name the source returns nothing. */
  method CpioGetExec(a: string, target: string, exec: array?<char>, ghost es: seq<Entry>, ghost end: string)
    returns (returned: bool, address: nat)
    requires Archive(a, es, end)
    requires exec != null && First(es, target) < |es| ==> |es[First(es, target)].data| <= exec.Length
    modifies exec
    ensures returned <==> First(es, target) < |es|
    ensures returned ==> address == DataOf(es, First(es, target))
    ensures returned ==> var data := es[First(es, target)].data;
      && address + |data| <= |a| && a[address..address + |data|] == data
      && (exec != null ==> exec[..] == data + old(exec[..])[|data|..])
    ensures !returned && exec != null ==> exec[..] == old(exec[..])
  {
    hide Archive, EntryOk, HeaderAt, OffsetOf, Encode, First, Align4;
    var header := 0;
    ghost var i := 0;
    StartsAtZero(es);
    while true
      invariant i <= First(es, target) && header == OffsetOf(es, i)
      invariant exec != null ==> exec[..] == old(exec[..])
      decreases |es| - i
    {
      ghost var e := Find(a, es, end, i);
      if a[header..header + 6] != MAGIC { break; }
      var filenamesize, filename := ReadName(a, header, e);
      if filename == TRAILER { break; }
      if filename == target {
        address := header + Align4(HEADER_SIZE + filenamesize);
        DataSlice(a, es, end, i);
        if exec != null {
          var filesize := ReadSize(a, header, e);
          Memcpy(exec, a[address..address + filesize]);
        }
        return true, address;
      }
      header := NextHeader(a, header, filenamesize, e);
      i := i + 1;
    }
    return false, 0;
  }

  method Memcpy(to: array<char>, bytes: string)
    requires |bytes| <= to.Length
    modifies to
    ensures to[..] == bytes + old(to[..])[|bytes|..]
  {
    var i := 0;
    while i < |bytes|
      invariant 0 <= i <= |bytes|
      invariant forall k :: 0 <= k < i ==> to[k] == bytes[k]
      invariant forall k :: i <= k < to.Length ==> to[k] == old(to[k])
    {
      to[i] := bytes[i];
      i := i + 1;
    }
  }
}
