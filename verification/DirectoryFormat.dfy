/** The layout of a squashfs directory: runs of up to 256 entries behind a header that carries what
    they share, the start block of their inodes and a base inode number. */
module DirectoryFormat {
  import opened Compression

  const NAME_LEN := 256

  /** One directory entry. `block` and `offset` refer to its inode in the inode table. */
  datatype Entry = Entry(name: seq<Byte>, block: nat, offset: nat, kind: nat, number: nat)

  datatype Run = Run(block: nat, base: nat, entries: seq<Entry>)

  predicate NameOk(name: seq<Byte>) { name != [] && forall i :: 0 <= i < |name| ==> name[i] != 0 }

  /** The widths of the fields that the entry ends up in. */
  predicate EntryOk(e: Entry) {
    NameOk(e.name) && e.block < 0x1_0000_0000 && e.offset < 8192 && e.kind < 8 && e.number < 0x1_0000_0000
  }

  ghost predicate RunOk(r: Run) {
    && 1 <= |r.entries| <= 256 && r.block < 0x1_0000_0000 && r.base < 0x1_0000_0000
    && forall i :: 0 <= i < |r.entries| ==>
         && EntryOk(r.entries[i]) && |r.entries[i].name| <= NAME_LEN && r.entries[i].block == r.block
         && -32768 <= r.entries[i].number - r.base <= 32767
  }

  ghost predicate RunsOk(runs: seq<Run>) { forall k :: 0 <= k < |runs| ==> RunOk(runs[k]) }

  // ---------- Bytes ----------

  function Le16(v: nat): (r: seq<Byte>)
    requires v < 0x1_0000
    ensures |r| == 2
  {
    [v % 256, v / 256]
  }

  function Le32(v: nat): (r: seq<Byte>)
    requires v < 0x1_0000_0000
    ensures |r| == 4
  {
    [v % 256, v / 256 % 256, v / 65536 % 256, v / 16777216]
  }

  function Word16(a: Byte, b: Byte): nat { (a as int) + 256 * (b as int) }

  function Word32(a: Byte, b: Byte, c: Byte, d: Byte): nat {
    (a as int) + 256 * (b as int) + 65536 * (c as int) + 16777216 * (d as int)
  }

  lemma Le16RoundTrip(v: nat)
    requires v < 0x1_0000
    ensures Word16(Le16(v)[0], Le16(v)[1]) == v
  {
  }

  lemma Le32RoundTrip(v: nat)
    requires v < 0x1_0000_0000
    ensures Word32(Le32(v)[0], Le32(v)[1], Le32(v)[2], Le32(v)[3]) == v
  {
    var a := v / 256;
    var b := a / 256;
    assert b == v / 65536 && b / 256 == v / 16777216;
  }

  /** A signed 16-bit field. */
  function ToField(delta: int): nat
    requires -32768 <= delta <= 32767
  {
    if delta < 0 then delta + 65536 else delta
  }

  function FromField(f: nat): int { if f >= 32768 then f - 65536 else f }

  /** Nine bytes: the number of entries less one, the shared block, the base inode number. */
  function HeaderBytes(count: nat, block: nat, base: nat): (r: seq<Byte>)
    requires 1 <= count <= 256 && block < 0x1_0000_0000 && base < 0x1_0000_0000
    ensures |r| == 9
  {
    [count - 1] + Le32(block) + Le32(base)
  }

  /** Five bytes, then the name: 13 bits of offset and 3 of kind, the length less one, the number as a delta. */
  function EntryBytes(e: Entry, base: nat): (r: seq<Byte>)
    requires EntryOk(e) && |e.name| <= NAME_LEN && -32768 <= e.number - base <= 32767
    ensures |r| == 5 + |e.name|
  {
    Le16(e.offset + 8192 * e.kind) + [|e.name| - 1] + Le16(ToField(e.number - base)) + e.name
  }

  function EntriesBytes(r: Run): (s: seq<Byte>)
    requires RunOk(r) || r.entries == []
    decreases |r.entries|
  {
    if r.entries == [] then []
    else
      var n := |r.entries| - 1;
      EntriesBytes(r.(entries := r.entries[..n])) + EntryBytes(r.entries[n], r.base)
  }

  function RunBytes(r: Run): seq<Byte>
    requires RunOk(r)
  {
    HeaderBytes(|r.entries|, r.block, r.base) + EntriesBytes(r)
  }

  function RunsBytes(runs: seq<Run>): seq<Byte>
    requires RunsOk(runs)
  {
    if runs == [] then [] else RunsBytes(runs[..|runs| - 1]) + RunBytes(runs[|runs| - 1])
  }

  /** The entries of all runs in order. */
  function Listing(runs: seq<Run>): seq<Entry> {
    if runs == [] then [] else Listing(runs[..|runs| - 1]) + runs[|runs| - 1].entries
  }

  lemma RunsBytesLast(runs: seq<Run>, front: seq<Run>, r: Run)
    requires RunsOk(runs) && runs == front + [r]
    ensures RunsOk(front) && RunOk(r) && RunsBytes(runs) == RunsBytes(front) + RunBytes(r)
  {
    assert runs[|runs| - 1] == r && runs[..|runs| - 1] == front;
    forall k | 0 <= k < |front| ensures RunOk(front[k]) { assert front[k] == runs[k]; }
  }

  lemma {:induction false} RunsBytesSplit(runs: seq<Run>, m: nat)
    requires RunsOk(runs) && m <= |runs|
    ensures RunsBytes(runs) == RunsBytes(runs[..m]) + RunsBytes(runs[m..])
  {
    if m == |runs| {
      assert runs[..m] == runs && runs[m..] == [];
    } else {
      var front, r := runs[..|runs| - 1], runs[|runs| - 1];
      PartsOk(runs, front, r, m);
      hide *;
      RunsBytesSplit(front, m);
      SplitGrows(front[..m], front[m..], front, r);
    }
  }

  lemma PartsOk(runs: seq<Run>, front: seq<Run>, r: Run, m: nat)
    requires RunsOk(runs) && m < |runs| && front == runs[..|runs| - 1] && r == runs[|runs| - 1]
    ensures RunsOk(front) && RunOk(r) && runs == front + [r]
    ensures RunsOk(front[..m]) && RunsOk(front[m..]) && runs[..m] == front[..m] && runs[m..] == front[m..] + [r]
  {
    hide RunOk;
  }

  lemma SplitGrows(a: seq<Run>, b: seq<Run>, front: seq<Run>, r: Run)
    requires RunsOk(a) && RunsOk(b) && RunsOk(front) && RunOk(r) && RunsBytes(front) == RunsBytes(a) + RunsBytes(b)
    ensures RunsBytes(front + [r]) == RunsBytes(a) + RunsBytes(b + [r])
  {
    RunsBytesLast(front + [r], front, r);
    RunsBytesLast(b + [r], b, r);
    Regroup(RunsBytes(front + [r]), RunsBytes(front), RunsBytes(a), RunsBytes(b), RunBytes(r), RunsBytes(b + [r]));
  }

  lemma Regroup(whole: seq<Byte>, ab: seq<Byte>, a: seq<Byte>, b: seq<Byte>, c: seq<Byte>, bc: seq<Byte>)
    requires whole == ab + c && ab == a + b && bc == b + c
    ensures whole == a + bc
  {
  }

  lemma Associate(a: seq<Byte>, b: seq<Byte>, c: seq<Byte>)
    ensures (a + b) + c == a + (b + c)
  {
  }

  lemma {:induction false} ListingSplit(runs: seq<Run>, m: nat)
    requires m <= |runs|
    ensures Listing(runs) == Listing(runs[..m]) + Listing(runs[m..])
  {
    var n := |runs| - 1;
    if m == |runs| {
      assert runs[..m] == runs && runs[m..] == [];
    } else {
      ListingSplit(runs[..n], m);
      assert runs[..n][..m] == runs[..m];
      assert runs[..n][m..] == runs[m..][..n - m];
    }
  }

  lemma {:induction false} RunsBytesGrow(runs: seq<Run>, m: nat, k: nat)
    requires RunsOk(runs) && m <= k <= |runs|
    ensures |RunsBytes(runs[..m])| + 9 * (k - m) <= |RunsBytes(runs[..k])| <= |RunsBytes(runs)|
    decreases |runs|
  {
    RunsBytesSplit(runs, k);
    RunsBytesSplit(runs[..k], m);
    assert runs[..k][..m] == runs[..m];
    RunsAtLeast(runs[..k][m..]);
  }

  lemma {:induction false} RunsAtLeast(runs: seq<Run>)
    requires RunsOk(runs)
    ensures |RunsBytes(runs)| >= 9 * |runs|
  {
    if runs != [] { RunsAtLeast(runs[..|runs| - 1]); }
  }

  // ---------- Sizes ----------

  /** Five bytes and the name for every entry: what the first scan adds up in byte_count. */
  function EntrySizes(entries: seq<Entry>): nat {
    if entries == [] then 0 else EntrySizes(entries[..|entries| - 1]) + 5 + |entries[|entries| - 1].name|
  }

  lemma {:induction false} EntriesBytesSize(r: Run)
    requires RunOk(r) || r.entries == []
    ensures |EntriesBytes(r)| == EntrySizes(r.entries)
    decreases |r.entries|
  {
    if r.entries != [] { EntriesBytesSize(r.(entries := r.entries[..|r.entries| - 1])); }
  }

  lemma {:induction false} EntrySizesConcat(a: seq<Entry>, b: seq<Entry>)
    ensures EntrySizes(a + b) == EntrySizes(a) + EntrySizes(b)
  {
    if b == [] {
      assert a + b == a;
    } else {
      assert (a + b)[..|a + b| - 1] == a + b[..|b| - 1];
      EntrySizesConcat(a, b[..|b| - 1]);
    }
  }

  lemma {:induction false} RunsBytesSize(runs: seq<Run>)
    requires RunsOk(runs)
    ensures |RunsBytes(runs)| == EntrySizes(Listing(runs)) + 9 * |runs| && |runs| <= |Listing(runs)|
  {
    if runs != [] {
      var n := |runs| - 1;
      RunsBytesSize(runs[..n]);
      EntriesBytesSize(runs[n]);
      EntrySizesConcat(Listing(runs[..n]), runs[n].entries);
    }
  }

  /** A directory that does not need a long inode fits its 19-bit size field, header overhead included. */
  lemma ShortDirectoryFits(runs: seq<Run>, names: seq<Entry>)
    requires RunsOk(runs) && |names| == |Listing(runs)| < 257
    requires EntrySizes(Listing(runs)) <= EntrySizes(names) < 8192
    ensures |RunsBytes(runs)| + 3 < 0x8_0000
  {
    RunsBytesSize(runs);
  }

  // ---------- Reading ----------

  /** What squashfs_openddir keeps of an entry. */
  datatype DirEnt = DirEnt(name: seq<Byte>, block: nat, offset: nat, kind: nat)

  function Kept(e: Entry): DirEnt { DirEnt(e.name, e.block, e.offset, e.kind) }

  function KeptAll(entries: seq<Entry>): (r: seq<DirEnt>)
    ensures |r| == |entries| && forall i :: 0 <= i < |r| ==> r[i] == Kept(entries[i])
  {
    seq(|entries|, i requires 0 <= i < |entries| => Kept(entries[i]))
  }

  /** A C string ends at its first zero byte. */
  function CString(s: seq<Byte>): seq<Byte> {
    if s == [] || s[0] == 0 then [] else [s[0]] + CString(s[1..])
  }

  lemma {:induction false} CStringOfName(s: seq<Byte>)
    requires forall i :: 0 <= i < |s| ==> s[i] != 0
    ensures CString(s) == s
  {
    if s != [] { CStringOfName(s[1..]); }
  }

  /** The header at the start of a run and the entry after the first j entries are read back, the
      inode number as the base plus a signed delta. */
  lemma HeaderReadsBack(r: Run)
    requires RunOk(r)
    ensures var h := HeaderBytes(|r.entries|, r.block, r.base);
            (h[0] as int) + 1 == |r.entries| && Word32(h[1], h[2], h[3], h[4]) == r.block
            && Word32(h[5], h[6], h[7], h[8]) == r.base
  {
    Le32RoundTrip(r.block);
    Le32RoundTrip(r.base);
  }

  lemma Packed(offset: nat, kind: nat)
    requires offset < 8192
    ensures (offset + 8192 * kind) % 8192 == offset && (offset + 8192 * kind) / 8192 == kind
  {
  }

  lemma EntryReadsBack(e: Entry, base: nat)
    requires EntryOk(e) && |e.name| <= NAME_LEN && -32768 <= e.number - base <= 32767
    ensures var b := EntryBytes(e, base);
            && Word16(b[0], b[1]) % 8192 == e.offset && Word16(b[0], b[1]) / 8192 == e.kind
            && (b[2] as int) + 1 == |e.name| && b[5..] == e.name
            && base + FromField(Word16(b[3], b[4])) == e.number
  {
    var w := e.offset + 8192 * e.kind;
    Le16RoundTrip(w);
    Le16RoundTrip(ToField(e.number - base));
    Packed(e.offset, e.kind);
    var b := EntryBytes(e, base);
    assert b[0] == Le16(w)[0] && b[1] == Le16(w)[1];
    assert b[3] == Le16(ToField(e.number - base))[0] && b[4] == Le16(ToField(e.number - base))[1];
  }
}
