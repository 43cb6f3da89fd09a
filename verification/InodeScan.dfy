/** scan_inode_table: the inode table is walked from its start, the type of each record telling where the
    next one begins. The records are what create_inode has laid down, the root inode last. */
module InodeScan {
  import opened Compression
  import opened DirectoryFormat
  import opened DirectoryTable
  import opened FileBlocks

  const DIR_TYPE := 1
  const FILE_TYPE := 2
  const SYMLINK_TYPE := 3
  const BLKDEV_TYPE := 4
  const CHRDEV_TYPE := 5
  const FIFO_TYPE := 6
  const SOCKET_TYPE := 7
  const LDIR_TYPE := 8
  const LREG_TYPE := 9

  const INVALID_FRAG := 0xffff_ffff

  // ---------- Records ----------

  /** Fields that the walk does not look at are kept as the bytes they take. */
  datatype Record =
    | Reg(head: seq<Byte>, fragment: nat, offset: seq<Byte>, fileSize: nat, blockList: seq<Byte>)
    | Lreg(head: seq<Byte>, fragment: nat, offset: seq<Byte>, fileSize: nat, blockList: seq<Byte>)
    | Symlink(head: seq<Byte>, text: seq<Byte>)
    | Device(head: seq<Byte>, block: bool, rdev: seq<Byte>)
    | Ipc(head: seq<Byte>, socket: bool)
    | DirRecord(head: seq<Byte>, tail: seq<Byte>)
    | Ldir(head: seq<Byte>, tail: seq<Byte>, parent: seq<Byte>, index: seq<Index>)

  /** An entry of a directory index: 8 bytes, and a name of 1 to 256 bytes. */
  datatype Index = Index(place: seq<Byte>, name: seq<Byte>)

  /** The type number of each kind of record, as it stands in an image. */
  function TypeOf(r: Record): nat {
    match r
    case Reg(_, _, _, _, _) => 2
    case Lreg(_, _, _, _, _) => 9
    case Symlink(_, _) => 3
    case Device(_, block, _) => if block then 4 else 5
    case Ipc(_, socket) => if socket then 7 else 6
    case DirRecord(_, _) => 1
    case Ldir(_, _, _, _) => 8
  }

  // Files of this size and more get the long record.
  const MAX_SHORT_FILE := 0x3fff_ffff

  /** The number of blocks that both sides compute for a file. */
  function BlocksOf(bs: nat, fragment: nat, fileSize: nat): nat
    requires bs > 0
  {
    BlockCount(bs, fileSize, fragment != INVALID_FRAG)
  }

  /** `head` is the record up to its first field of interest, the type in the low bits of its first byte. */
  predicate RecordOk(bs: nat, r: Record)
    requires bs > 0
  {
    && |r.head| == (match r
                    case Reg(_, _, _, _, _) => 20
                    case Lreg(_, _, _, _, _) => 24
                    case _ => 16)
    && r.head[0] % 16 == TypeOf(r)
    && match r
       case Reg(_, fragment, offset, fileSize, blockList) =>
         && fragment < 0x1_0000_0000 && |offset| == 4 && fileSize < MAX_SHORT_FILE
         && |blockList| == 4 * BlockCount(bs, fileSize, fragment != 0xffff_ffff)
       case Lreg(_, fragment, offset, fileSize, blockList) =>
         && fragment < 0x1_0000_0000 && |offset| == 4 && fileSize < 0x1_0000_0000_0000_0000
         && |blockList| == 4 * BlockCount(bs, fileSize, fragment != 0xffff_ffff)
       case Symlink(_, text) => |text| < 65536
       case Device(_, _, rdev) => |rdev| == 2
       case Ipc(_, _) => true
       case DirRecord(_, tail) => |tail| == 12
       case Ldir(_, tail, parent, index) =>
         && |tail| == 9 && |parent| == 4 && |index| < 65536
         && forall k :: 0 <= k < |index| ==> IndexOk(index[k])
  }

  predicate IndexOk(i: Index) { |i.place| == 8 && 1 <= |i.name| <= 256 }

  function Le64(v: nat): (r: seq<Byte>)
    requires v < 0x1_0000_0000_0000_0000
    ensures |r| == 8
  {
    Le32(v % 0x1_0000_0000) + Le32(v / 0x1_0000_0000)
  }

  function IndexBytes(i: Index): (r: seq<Byte>)
    requires IndexOk(i)
    ensures |r| == 9 + |i.name|
  {
    i.place + [|i.name| - 1] + i.name
  }

  function IndexesBytes(index: seq<Index>): seq<Byte>
    requires forall k :: 0 <= k < |index| ==> IndexOk(index[k])
  {
    if index == [] then [] else IndexBytes(index[0]) + IndexesBytes(index[1..])
  }

  /** A record as create_inode lays it down. */
  function Bytes(bs: nat, r: Record): (s: seq<Byte>)
    requires bs > 0 && RecordOk(bs, r)
    ensures |s| >= 16 && s[0] % 16 == TypeOf(r)
  {
    r.head + match r
             case Reg(_, fragment, offset, fileSize, blockList) => Le32(fragment) + offset + Le32(fileSize) + blockList
             case Lreg(_, fragment, offset, fileSize, blockList) => Le32(fragment) + offset + Le64(fileSize) + blockList
             case Symlink(_, text) => Le16(|text|) + text
             case Device(_, _, rdev) => rdev
             case Ipc(_, _) => []
             case DirRecord(_, tail) => tail
             case Ldir(_, tail, parent, index) => tail + Le16(|index|) + parent + IndexesBytes(index)
  }

  ghost predicate RecordsOk(bs: nat, records: seq<Record>)
    requires bs > 0
  {
    forall k :: 0 <= k < |records| ==> RecordOk(bs, records[k])
  }

  function AllBytes(bs: nat, records: seq<Record>): seq<Byte>
    requires bs > 0 && RecordsOk(bs, records)
  {
    if records == [] then [] else AllBytes(bs, records[..|records| - 1]) + Bytes(bs, records[|records| - 1])
  }

  // ---------- Counts ----------

  datatype Counts = Counts(file: nat, sym: nat, dev: nat, dir: nat, fifo: nat, sock: nat, fileBytes: nat)

  function Count(c: Counts, r: Record): Counts {
    match r
    case Reg(_, _, _, fileSize, _) => c.(file := c.file + 1, fileBytes := c.fileBytes + fileSize)
    case Lreg(_, _, _, fileSize, _) => c.(file := c.file + 1, fileBytes := c.fileBytes + fileSize)
    case Symlink(_, _) => c.(sym := c.sym + 1)
    case Device(_, _, _) => c.(dev := c.dev + 1)
    case Ipc(_, socket) => if socket then c.(sock := c.sock + 1) else c.(fifo := c.fifo + 1)
    case DirRecord(_, _) => c.(dir := c.dir + 1)
    case Ldir(_, _, _, _) => c.(dir := c.dir + 1)
  }

  function CountAll(records: seq<Record>): Counts {
    if records == [] then Counts(0, 0, 0, 0, 0, 0, 0) else Count(CountAll(records[..|records| - 1]), records[|records| - 1])
  }

  // ---------- The walk ----------

  /** How far the cursor moves, by what it reads. */
  method Step(bs: nat, table: seq<Byte>, at: nat, c: Counts, ghost r: Record) returns (ok: bool, next: nat, c': Counts)
    requires bs > 0 && RecordOk(bs, r) && LiesAt(table, at, Bytes(bs, r)) && at + 32 <= |table|
    ensures ok && next == at + |Bytes(bs, r)| && c' == Count(c, r)
  {
    ByteOf(table, at, Bytes(bs, r), 0);
    ok := true;
    var kind := table[at] % 16;
    if kind == FILE_TYPE {
      RegFields(bs, table, at, r);
      var fragment := Word32(table[at + 20], table[at + 21], table[at + 22], table[at + 23]);
      var fileSize := Word32(table[at + 28], table[at + 29], table[at + 30], table[at + 31]);
      next := at + 32 + 4 * BlocksOf(bs, fragment, fileSize);
      c' := c.(file := c.file + 1, fileBytes := c.fileBytes + fileSize);
    } else if kind == LREG_TYPE {
      LregFields(bs, table, at, r);
      var fragment := Word32(table[at + 24], table[at + 25], table[at + 26], table[at + 27]);
      var low := Word32(table[at + 32], table[at + 33], table[at + 34], table[at + 35]);
      var high := Word32(table[at + 36], table[at + 37], table[at + 38], table[at + 39]);
      var fileSize := low + 0x1_0000_0000 * high;
      next := at + 40 + 4 * BlocksOf(bs, fragment, fileSize);
      c' := c.(file := c.file + 1, fileBytes := c.fileBytes + fileSize);
    } else if kind == SYMLINK_TYPE {
      SymlinkFields(bs, table, at, r);
      next := at + 18 + Word16(table[at + 16], table[at + 17]);
      c' := c.(sym := c.sym + 1);
    } else if kind == DIR_TYPE {
      next := at + 28;
      c' := c.(dir := c.dir + 1);
    } else if kind == LDIR_TYPE {
      LdirFields(bs, table, at, r);
      var count := Word16(table[at + 25], table[at + 26]);
      next := SkipIndex(table, at + 31, count, r.index);
      c' := c.(dir := c.dir + 1);
    } else if kind == BLKDEV_TYPE || kind == CHRDEV_TYPE {
      next := at + 18;
      c' := c.(dev := c.dev + 1);
    } else if kind == FIFO_TYPE {
      next := at + 16;
      c' := c.(fifo := c.fifo + 1);
    } else if kind == SOCKET_TYPE {
      next := at + 16;
      c' := c.(sock := c.sock + 1);
    } else {
      ok, next, c' := false, at, c;
    }
  }

  lemma ByteOf(table: seq<Byte>, at: nat, s: seq<Byte>, i: nat)
    requires LiesAt(table, at, s) && i < |s|
    ensures at + i < |table| && table[at + i] == s[i]
  {
    assert table[at..at + |s|][i] == table[at + i];
  }

  lemma FourOf(table: seq<Byte>, at: nat, s: seq<Byte>, i: nat, v: nat)
    requires LiesAt(table, at, s) && i + 4 <= |s| && v < 0x1_0000_0000 && s[i..i + 4] == Le32(v)
    ensures at + i + 4 <= |table| && Word32(table[at + i], table[at + i + 1], table[at + i + 2], table[at + i + 3]) == v
  {
    Le32RoundTrip(v);
    var w := s[i..i + 4];
    ByteOf(table, at, s, i);
    ByteOf(table, at, s, i + 1);
    ByteOf(table, at, s, i + 2);
    ByteOf(table, at, s, i + 3);
    assert w[0] == s[i] && w[1] == s[i + 1] && w[2] == s[i + 2] && w[3] == s[i + 3];
  }

  lemma TwoOf(table: seq<Byte>, at: nat, s: seq<Byte>, i: nat, v: nat)
    requires LiesAt(table, at, s) && i + 2 <= |s| && v < 0x1_0000 && s[i..i + 2] == Le16(v)
    ensures at + i + 2 <= |table| && Word16(table[at + i], table[at + i + 1]) == v
  {
    Le16RoundTrip(v);
    var w := s[i..i + 2];
    ByteOf(table, at, s, i);
    ByteOf(table, at, s, i + 1);
    assert w[0] == s[i] && w[1] == s[i + 1];
  }

  lemma RegFields(bs: nat, table: seq<Byte>, at: nat, r: Record)
    requires bs > 0 && RecordOk(bs, r) && LiesAt(table, at, Bytes(bs, r)) && r.Reg?
    ensures at + 32 <= |table| && Word32(table[at + 20], table[at + 21], table[at + 22], table[at + 23]) == r.fragment
    ensures Word32(table[at + 28], table[at + 29], table[at + 30], table[at + 31]) == r.fileSize
  {
    var s := Bytes(bs, r);
    hide LiesAt, Word32, Bytes;
    assert s == r.head + Le32(r.fragment) + r.offset + Le32(r.fileSize) + r.blockList by { BytesOfReg(bs, r); }
    FourOf(table, at, s, 20, r.fragment);
    FourOf(table, at, s, 28, r.fileSize);
  }

  lemma BytesOfReg(bs: nat, r: Record)
    requires bs > 0 && RecordOk(bs, r) && r.Reg?
    ensures Bytes(bs, r) == r.head + Le32(r.fragment) + r.offset + Le32(r.fileSize) + r.blockList
  {
  }

  lemma LregFields(bs: nat, table: seq<Byte>, at: nat, r: Record)
    requires bs > 0 && RecordOk(bs, r) && LiesAt(table, at, Bytes(bs, r)) && r.Lreg?
    ensures at + 40 <= |table| && Word32(table[at + 24], table[at + 25], table[at + 26], table[at + 27]) == r.fragment
    ensures Word32(table[at + 32], table[at + 33], table[at + 34], table[at + 35])
            + 0x1_0000_0000 * Word32(table[at + 36], table[at + 37], table[at + 38], table[at + 39]) == r.fileSize
  {
    var s := Bytes(bs, r);
    var low, high := r.fileSize % 0x1_0000_0000, r.fileSize / 0x1_0000_0000;
    hide LiesAt, Word32, Bytes;
    assert s == r.head + Le32(r.fragment) + r.offset + Le32(low) + Le32(high) + r.blockList by { BytesOfLreg(bs, r); }
    FourOf(table, at, s, 24, r.fragment);
    FourOf(table, at, s, 32, low);
    FourOf(table, at, s, 36, high);
  }

  lemma BytesOfLreg(bs: nat, r: Record)
    requires bs > 0 && RecordOk(bs, r) && r.Lreg?
    ensures Bytes(bs, r) == r.head + Le32(r.fragment) + r.offset + Le32(r.fileSize % 0x1_0000_0000)
                            + Le32(r.fileSize / 0x1_0000_0000) + r.blockList
  {
  }

  lemma SymlinkFields(bs: nat, table: seq<Byte>, at: nat, r: Record)
    requires bs > 0 && RecordOk(bs, r) && LiesAt(table, at, Bytes(bs, r)) && r.Symlink?
    ensures at + 18 <= |table| && Word16(table[at + 16], table[at + 17]) == |r.text|
  {
    TwoOf(table, at, Bytes(bs, r), 16, |r.text|);
  }

  lemma LdirFields(bs: nat, table: seq<Byte>, at: nat, r: Record)
    requires bs > 0 && RecordOk(bs, r) && LiesAt(table, at, Bytes(bs, r)) && r.Ldir?
    ensures at + 27 <= |table| && Word16(table[at + 25], table[at + 26]) == |r.index|
    ensures LiesAt(table, at + 31, IndexesBytes(r.index)) && |Bytes(bs, r)| == 31 + |IndexesBytes(r.index)|
  {
    var front := r.head + r.tail + Le16(|r.index|) + r.parent;
    assert Bytes(bs, r) == front + IndexesBytes(r.index);
    TwoOf(table, at, Bytes(bs, r), 25, |r.index|);
    LiesLast(front, IndexesBytes(r.index));
    LiesInside(table, at, Bytes(bs, r), 31, IndexesBytes(r.index));
  }

  /** The inner loop over the entries of a directory index. */
  method SkipIndex(table: seq<Byte>, at: nat, count: nat, ghost index: seq<Index>) returns (next: nat)
    requires |index| == count && forall k :: 0 <= k < |index| ==> IndexOk(index[k])
    requires LiesAt(table, at, IndexesBytes(index))
    ensures next == at + |IndexesBytes(index)|
  {
    next := at;
    var i := 0;
    assert index[0..] == index;
    while i < count
      invariant 0 <= i <= count && next + |IndexesBytes(index[i..])| == at + |IndexesBytes(index)|
      invariant next >= at && LiesAt(table, next, IndexesBytes(index[i..]))
    {
      ghost var rest := index[i..];
      assert rest[1..] == index[i + 1..];
      assert table[next..next + |IndexesBytes(rest)|][8] == IndexBytes(rest[0])[8];
      LiesLast(IndexBytes(rest[0]), IndexesBytes(rest[1..]));
      LiesInside(table, next, IndexesBytes(rest), |IndexBytes(rest[0])|, IndexesBytes(rest[1..]));
      next := next + 9 + (table[next + 8] as int) + 1;
      i := i + 1;
    }
  }

  lemma {:induction false} RecordLies(bs: nat, records: seq<Record>, k: nat)
    requires bs > 0 && RecordsOk(bs, records) && k < |records|
    ensures LiesAt(AllBytes(bs, records), |AllBytes(bs, records[..k])|, Bytes(bs, records[k]))
    ensures |AllBytes(bs, records[..k + 1])| == |AllBytes(bs, records[..k])| + |Bytes(bs, records[k])| <= |AllBytes(bs, records)|
    decreases |records|
  {
    hide Bytes, LiesAt;
    var n := |records| - 1;
    var front, last := records[..n], Bytes(bs, records[n]);
    assert records[..k + 1][..k] == records[..k] && AllBytes(bs, records) == AllBytes(bs, front) + last;
    hide AllBytes;
    if k < n {
      RecordLies(bs, front, k);
      assert front[..k] == records[..k] && front[..k + 1] == records[..k + 1];
      LiesLonger(AllBytes(bs, front), last, |AllBytes(bs, records[..k])|, Bytes(bs, records[k]));
    } else {
      assert records[..k + 1] == records;
      LiesLast(AllBytes(bs, front), last);
    }
  }

  /** The loop of scan_inode_table: it stops at every record that was laid down and nowhere else, ends at the
      root inode, and counts every record as what it is. The root inode takes at least 28 bytes, so the 32
      bytes read for each of the others are always there. */
  method ScanInodeTable(bs: nat, table: seq<Byte>, rootAt: nat, ghost records: seq<Record>)
    returns (ok: bool, c: Counts, visited: seq<nat>)
    requires bs > 0 && RecordsOk(bs, records)
    requires rootAt == |AllBytes(bs, records)| && rootAt + 28 <= |table| && LiesAt(table, 0, AllBytes(bs, records))
    ensures ok && c == CountAll(records)
    ensures |visited| == |records| && forall k :: 0 <= k < |records| ==> visited[k] == |AllBytes(bs, records[..k])|
  {
    hide RecordOk, Bytes;
    ok, c, visited := true, Counts(0, 0, 0, 0, 0, 0, 0), [];
    var at: nat := 0;
    ghost var k: nat := 0;
    while at < rootAt
      invariant k <= |records| && at == |AllBytes(bs, records[..k])| <= rootAt && ok && c == CountAll(records[..k])
      invariant |visited| == k && forall j :: 0 <= j < k ==> visited[j] == |AllBytes(bs, records[..j])|
      decreases |records| - k
    {
      AllThere(bs, records, k);
      hide AllBytes, CountAll, LiesAt;
      visited := visited + [at];
      ok, at, c := StepAt(bs, table, at, c, records, k);
      if !ok { return; }
      k := k + 1;
    }
    AllThere(bs, records, k);
  }

  lemma AllThere(bs: nat, records: seq<Record>, k: nat)
    requires bs > 0 && RecordsOk(bs, records) && k <= |records|
    ensures |AllBytes(bs, records[..k])| == |AllBytes(bs, records)| <==> k == |records|
    ensures k == |records| ==> records[..k] == records
  {
    if k < |records| { RecordLies(bs, records, k); } else { assert records[..k] == records; }
  }

  method StepAt(bs: nat, table: seq<Byte>, at: nat, c: Counts, ghost records: seq<Record>, ghost k: nat)
    returns (ok: bool, next: nat, c': Counts)
    requires bs > 0 && RecordsOk(bs, records) && k < |records|
    requires |AllBytes(bs, records)| + 28 <= |table| && LiesAt(table, 0, AllBytes(bs, records))
    requires at == |AllBytes(bs, records[..k])| && c == CountAll(records[..k])
    ensures ok && next == |AllBytes(bs, records[..k + 1])| <= |AllBytes(bs, records)| && c' == CountAll(records[..k + 1])
  {
    RecordLies(bs, records, k);
    LiesInside(table, 0, AllBytes(bs, records), at, Bytes(bs, records[k]));
    assert records[..k + 1][..k] == records[..k];
    hide LiesAt, AllBytes;
    ok, next, c' := Step(bs, table, at, c, records[k]);
  }
}
