/** The records of the file system, each with the values that mksquashfs stores in it: swapped out, the record has
    them at their places, high byte first, and swapped in again it gives them all back. */
module SwappedRecords {
  import opened BitFields
  import Compression
  import D = DirectoryFormat

  method Exact(f: Format, values: seq<nat>) returns (packed: seq<Octet>, r: seq<nat>)
    requires |values| == |Limits(f)| && forall i :: 0 <= i < |values| ==> values[i] < Limits(f)[i]
    ensures r == values && |packed| == SizeOf(f) && |FieldsOf(f)| == |values|
    ensures forall i :: 0 <= i < |values| ==> Holds(packed, FieldsOf(f)[i], values[i]) && values[i] < Pow2(FieldsOf(f)[i].tbits)
  {
    LimitsFit(f);
    hide FieldsOf, Limits, SizeOf;
    packed, r := ThereAndBack(f, values);
    forall i | 0 <= i < |values| ensures r[i] == values[i] { Small(values[i], Limits(f)[i]); }
  }

  lemma Small(v: nat, n: nat)
    requires v < n
    ensures v % n == v
  {
  }

  /** A value in a field made of the bytes j, .., j + n - 1 is their number. */
  lemma InBytes(p: seq<Octet>, j: nat, n: nat, value: nat)
    requires Holds(p, Field(8 * j, 8 * n), value) && value < Pow2(8 * n)
    ensures j + n <= |p| && BigEndian(p[j..j + n]) == value
  {
    WholeBytes(p, j, n);
    NumOfBits(value, 8 * n);
  }

  // ---------- Directories ----------

  /** Thirteen bits of offset and three of type share the first two bytes. */
  method DirEntryBack(e: D.Entry, base: nat) returns (packed: seq<Octet>, r: seq<nat>)
    requires D.EntryOk(e) && |e.name| <= 256 && -32768 <= e.number - base <= 32767
    ensures r == [e.offset, e.kind, |e.name| - 1, D.ToField(e.number - base)]
    ensures |packed| == 5 && BigEndian(packed[..2]) == 8 * e.offset + e.kind
    ensures BigEndian(packed[2..3]) == |e.name| - 1 && BigEndian(packed[3..]) == D.ToField(e.number - base)
  {
    hide Holds, BigEndian, Pow2;
    var delta := D.ToField(e.number - base);
    packed, r := Exact(DirEntry, [e.offset, e.kind, |e.name| - 1, delta]);
    assert Holds(packed, FieldsOf(DirEntry)[0], e.offset) && Holds(packed, FieldsOf(DirEntry)[1], e.kind);
    assert Holds(packed, FieldsOf(DirEntry)[2], |e.name| - 1) && Holds(packed, FieldsOf(DirEntry)[3], delta);
    EntryBytes(packed, e.offset, e.kind, |e.name| - 1, delta);
  }

  lemma EntryBytes(p: seq<Octet>, offset: nat, kind: nat, size: nat, delta: nat)
    requires |p| == 5 && offset < 8192 && kind < 8 && size < 256 && delta < 65536
    requires Holds(p, Field(0, 13), offset) && Holds(p, Field(13, 3), kind) && Holds(p, Field(16, 8), size) && Holds(p, Field(24, 16), delta)
    ensures BigEndian(p[..2]) == 8 * offset + kind && BigEndian(p[2..3]) == size && BigEndian(p[3..]) == delta
  {
    PowersOfTwo();
    hide Pow2;
    InBytes(p, 2, 1, size);
    InBytes(p, 3, 2, delta);
    assert p[3..3 + 2] == p[3..];
    WholeBytes(p, 0, 2);
    assert p[0..0 + 2] == p[..2];
    assert FieldBits(p, 0, 16) == FieldBits(p, 0, 13) + FieldBits(p, 13, 3);
    NumConcat(FieldBits(p, 0, 13), FieldBits(p, 13, 3));
    NumOfBits(offset, 13);
    NumOfBits(kind, 3);
  }

  method DirHeaderBack(count: nat, block: nat, base: nat) returns (packed: seq<Octet>, r: seq<nat>)
    requires 1 <= count <= 256 && block < 0x1_0000_0000 && base < 0x1_0000_0000
    ensures r == [count - 1, block, base] && |packed| == 9
    ensures BigEndian(packed[0..1]) == count - 1 && BigEndian(packed[1..5]) == block && BigEndian(packed[5..9]) == base
  {
    hide Holds, BigEndian, Pow2;
    packed, r := Exact(DirHeader, [count - 1, block, base]);
    assert Holds(packed, FieldsOf(DirHeader)[0], count - 1);
    assert Holds(packed, FieldsOf(DirHeader)[1], block) && Holds(packed, FieldsOf(DirHeader)[2], base);
    HeaderBytes(packed, count - 1, block, base);
  }

  lemma HeaderBytes(p: seq<Octet>, count: nat, block: nat, base: nat)
    requires |p| == 9 && count < 256 && block < 0x1_0000_0000 && base < 0x1_0000_0000
    requires Holds(p, Field(0, 8), count) && Holds(p, Field(8, 32), block) && Holds(p, Field(40, 32), base)
    ensures BigEndian(p[0..1]) == count && BigEndian(p[1..5]) == block && BigEndian(p[5..9]) == base
  {
    PowersOfTwo();
    hide *;
    InBytes(p, 0, 1, count);
    InBytes(p, 1, 4, block);
    InBytes(p, 5, 4, base);
  }

  /** A point of a directory index; the name follows, and its length less one is the size. */
  method DirIndexBack(index: nat, block: nat, name: seq<Compression.Byte>) returns (packed: seq<Octet>, r: seq<nat>)
    requires index < 0x1_0000_0000 && block < 0x1_0000_0000 && 1 <= |name| <= 256
    ensures r == [index, block, |name| - 1] && |packed| == 9
    ensures BigEndian(packed[0..4]) == index && BigEndian(packed[4..8]) == block && BigEndian(packed[8..9]) == |name| - 1
  {
    hide Holds, BigEndian, Pow2;
    packed, r := Exact(DirIndex, [index, block, |name| - 1]);
    assert Holds(packed, FieldsOf(DirIndex)[0], index) && Holds(packed, FieldsOf(DirIndex)[1], block);
    assert Holds(packed, FieldsOf(DirIndex)[2], |name| - 1);
    IndexBytes(packed, index, block, |name| - 1);
  }

  lemma IndexBytes(p: seq<Octet>, index: nat, block: nat, size: nat)
    requires |p| == 9 && index < 0x1_0000_0000 && block < 0x1_0000_0000 && size < 256
    requires Holds(p, Field(0, 32), index) && Holds(p, Field(32, 32), block) && Holds(p, Field(64, 8), size)
    ensures BigEndian(p[0..4]) == index && BigEndian(p[4..8]) == block && BigEndian(p[8..9]) == size
  {
    PowersOfTwo();
    hide *;
    InBytes(p, 0, 4, index);
    InBytes(p, 4, 4, block);
    InBytes(p, 8, 1, size);
  }

  // ---------- Inodes ----------

  /** What all inodes begin with: type, mode, uid, guid, time and number. */
  datatype Base = Base(kind: nat, mode: nat, uid: nat, guid: nat, mtime: nat, number: nat)

  predicate BaseOk(b: Base) {
    b.kind < 16 && b.mode < 4096 && b.uid < 256 && b.guid < 256 && b.mtime < 0x1_0000_0000 && b.number < 0x1_0000_0000
  }

  function Values(b: Base): seq<nat> { [b.kind, b.mode, b.uid, b.guid, b.mtime, b.number] }

  method BaseInodeBack(b: Base) returns (packed: seq<Octet>, r: seq<nat>)
    requires BaseOk(b)
    ensures r == [b.kind, b.mode, b.uid, b.guid, b.mtime, b.number] && |packed| == 12
  {
    packed, r := Exact(BaseInode, Values(b));
  }

  method IpcInodeBack(b: Base, nlink: nat) returns (packed: seq<Octet>, r: seq<nat>)
    requires BaseOk(b) && nlink < 0x1_0000_0000
    ensures r == [b.kind, b.mode, b.uid, b.guid, b.mtime, b.number, nlink] && |packed| == 16
  {
    packed, r := Exact(IpcInode, Values(b) + [nlink]);
  }

  method DevInodeBack(b: Base, nlink: nat, rdev: nat) returns (packed: seq<Octet>, r: seq<nat>)
    requires BaseOk(b) && nlink < 0x1_0000_0000 && rdev < 65536
    ensures r == [b.kind, b.mode, b.uid, b.guid, b.mtime, b.number, nlink, rdev] && |packed| == 18
  {
    packed, r := Exact(DevInode, Values(b) + [nlink, rdev]);
  }

  method SymlinkInodeBack(b: Base, nlink: nat, size: nat) returns (packed: seq<Octet>, r: seq<nat>)
    requires BaseOk(b) && nlink < 0x1_0000_0000 && size < 65536
    ensures r == [b.kind, b.mode, b.uid, b.guid, b.mtime, b.number, nlink, size] && |packed| == 18
  {
    packed, r := Exact(SymlinkInode, Values(b) + [nlink, size]);
  }

  /** The fragment lies at byte 20 and the size at byte 28. */
  method RegInodeBack(b: Base, start: nat, fragment: nat, offset: nat, size: nat) returns (packed: seq<Octet>, r: seq<nat>)
    requires BaseOk(b) && start < 0x1_0000_0000_0000_0000
    requires fragment < 0x1_0000_0000 && offset < 0x1_0000_0000 && size < 0x1_0000_0000
    ensures r == [b.kind, b.mode, b.uid, b.guid, b.mtime, b.number, start, fragment, offset, size] && |packed| == 32
    ensures BigEndian(packed[12..20]) == start && BigEndian(packed[20..24]) == fragment
    ensures BigEndian(packed[24..28]) == offset && BigEndian(packed[28..32]) == size
  {
    hide Holds, BigEndian, Pow2;
    packed, r := Exact(RegInode, Values(b) + [start, fragment, offset, size]);
    assert Holds(packed, FieldsOf(RegInode)[6], start) && Holds(packed, FieldsOf(RegInode)[7], fragment);
    assert Holds(packed, FieldsOf(RegInode)[8], offset) && Holds(packed, FieldsOf(RegInode)[9], size);
    RegBytes(packed, start, fragment, offset, size);
  }

  lemma RegBytes(p: seq<Octet>, start: nat, fragment: nat, offset: nat, size: nat)
    requires |p| == 32 && start < 0x1_0000_0000_0000_0000
    requires fragment < 0x1_0000_0000 && offset < 0x1_0000_0000 && size < 0x1_0000_0000
    requires Holds(p, Field(96, 64), start) && Holds(p, Field(160, 32), fragment)
    requires Holds(p, Field(192, 32), offset) && Holds(p, Field(224, 32), size)
    ensures BigEndian(p[12..20]) == start && BigEndian(p[20..24]) == fragment
    ensures BigEndian(p[24..28]) == offset && BigEndian(p[28..32]) == size
  {
    PowersOfTwo();
    hide *;
    InBytes(p, 12, 8, start);
    InBytes(p, 20, 4, fragment);
    InBytes(p, 24, 4, offset);
    InBytes(p, 28, 4, size);
  }

  method LregInodeBack(b: Base, nlink: nat, start: nat, fragment: nat, offset: nat, size: nat) returns (packed: seq<Octet>, r: seq<nat>)
    requires BaseOk(b) && nlink < 0x1_0000_0000 && start < 0x1_0000_0000_0000_0000
    requires fragment < 0x1_0000_0000 && offset < 0x1_0000_0000 && size < 0x1_0000_0000_0000_0000
    ensures r == [b.kind, b.mode, b.uid, b.guid, b.mtime, b.number, nlink, start, fragment, offset, size] && |packed| == 40
  {
    packed, r := Exact(LregInode, Values(b) + [nlink, start, fragment, offset, size]);
  }

  /** A directory of fewer than 2^19 bytes, at an offset below 8192. */
  method DirInodeBack(b: Base, nlink: nat, size: nat, offset: nat, block: nat, parent: nat) returns (packed: seq<Octet>, r: seq<nat>)
    requires BaseOk(b) && nlink < 0x1_0000_0000 && size < 0x8_0000 && offset < 8192
    requires block < 0x1_0000_0000 && parent < 0x1_0000_0000
    ensures r == [b.kind, b.mode, b.uid, b.guid, b.mtime, b.number, nlink, size, offset, block, parent] && |packed| == 28
  {
    packed, r := Exact(DirInode, Values(b) + [nlink, size, offset, block, parent]);
  }

  /** One of fewer than 2^27, with fewer than 2^16 index points. */
  method LdirInodeBack(b: Base, nlink: nat, size: nat, offset: nat, block: nat, count: nat, parent: nat)
    returns (packed: seq<Octet>, r: seq<nat>)
    requires BaseOk(b) && nlink < 0x1_0000_0000 && size < 0x800_0000 && offset < 8192
    requires block < 0x1_0000_0000 && count < 65536 && parent < 0x1_0000_0000
    ensures r == [b.kind, b.mode, b.uid, b.guid, b.mtime, b.number, nlink, size, offset, block, count, parent] && |packed| == 31
  {
    packed, r := Exact(LdirInode, Values(b) + [nlink, size, offset, block, count, parent]);
  }

  // ---------- Fragments ----------

  method FragmentEntryBack(start: nat, size: nat) returns (packed: seq<Octet>, r: seq<nat>)
    requires start < 0x1_0000_0000_0000_0000 && size < 0x1_0000_0000
    ensures r == [start, size] && |packed| == 16 && BigEndian(packed[0..8]) == start && BigEndian(packed[8..12]) == size
  {
    hide Holds, BigEndian, Pow2;
    packed, r := Exact(FragmentEntry, [start, size]);
    assert Holds(packed, FieldsOf(FragmentEntry)[0], start) && Holds(packed, FieldsOf(FragmentEntry)[1], size);
    FragmentBytes(packed, start, size);
  }

  lemma FragmentBytes(p: seq<Octet>, start: nat, size: nat)
    requires |p| == 16 && start < 0x1_0000_0000_0000_0000 && size < 0x1_0000_0000
    requires Holds(p, Field(0, 64), start) && Holds(p, Field(64, 32), size)
    ensures BigEndian(p[0..8]) == start && BigEndian(p[8..12]) == size
  {
    PowersOfTwo();
    hide *;
    InBytes(p, 0, 8, start);
    InBytes(p, 8, 4, size);
  }
}
