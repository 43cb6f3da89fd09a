/** How mksquashfs stores the contents of files: data blocks on the disk, tails together in fragment
    blocks, and a file whose bytes are there already not again. */
module FileWriter {
  import opened Options
  import opened Compression
  import opened FileBlocks
  import opened Checksums

  datatype FileOptions = FileOptions(codec: Codec, blockSize: nat, rawData: bool, rawFragments: bool,
                                     noFragments: bool, alwaysUseFragments: bool, duplicateChecking: bool)

  ghost predicate OptionsOk(o: FileOptions) { Faithful(o.codec) && 0 < o.blockSize <= FILE_MAX_SIZE }

  /** `index` is None for SQUASHFS_INVALID_FRAG. */
  datatype Fragment = Fragment(index: Option<nat>, offset: nat, size: nat)

  datatype FragmentEntry = FragmentEntry(start: nat, word: nat)

  datatype FileInfo = FileInfo(bytes: nat, start: nat, blockList: seq<nat>, fragmentChecksum: nat, fragment: Fragment)

  datatype Inode = Inode(size: nat, start: nat, blockList: seq<nat>, fragment: Fragment)

  // ---------- Reading back ----------

  /** The bytes a fragment stands for; `all` holds the contents of the fragment blocks. */
  function TailIn(all: seq<seq<Byte>>, f: Fragment): seq<Byte> {
    if f.index.None? || f.index.value >= |all| then [] else Slice(all[f.index.value], f.offset, f.size)
  }

  ghost predicate FragmentOk(all: seq<seq<Byte>>, f: Fragment) {
    if f.size == 0 then f.index.None?
    else f.index.Some? && f.index.value < |all| && f.offset + f.size <= |all[f.index.value]|
  }

  /** The number of blocks and of tail bytes as create_inode of unsquashfs derives them. */
  function ReaderBlocks(bs: nat, inode: Inode): nat
    requires bs > 0
  {
    BlockCount(bs, inode.size, inode.fragment.index.Some?)
  }

  function ReaderTail(bs: nat, inode: Inode): nat
    requires bs > 0
  {
    if inode.fragment.index.None? then 0 else inode.size % bs
  }

  /** What unsquashfs makes of an inode: the blocks, then the slice of the fragment. */
  function Extract(o: FileOptions, disk: seq<Byte>, all: seq<seq<Byte>>, inode: Inode): seq<Byte>
    requires o.blockSize > 0
  {
    ReadBlocks(o.codec, disk, inode.start, inode.blockList)
    + TailIn(all, inode.fragment.(size := ReaderTail(o.blockSize, inode)))
  }

  // ---------- What is on the disk ----------

  ghost predicate FragmentStored(o: FileOptions, disk: seq<Byte>, e: FragmentEntry, s: seq<Byte>) {
    && 0 < |s| <= o.blockSize
    && var m := Mangle(o.codec, s, o.rawFragments, DATA_BIT);
       e.word == m.word && e.start + |m.bytes| <= |disk| && disk[e.start..e.start + |m.bytes|] == m.bytes
  }

  lemma FragmentReads(o: FileOptions, disk: seq<Byte>, e: FragmentEntry, s: seq<Byte>)
    requires OptionsOk(o) && FragmentStored(o, disk, e, s)
    ensures ReadData(o.codec, disk, e.start, e.word) == s
  {
    ReadDataBack(o.codec, s, o.rawFragments, disk, e.start);
  }

  ghost predicate FragmentsStored(o: FileOptions, disk: seq<Byte>, table: seq<FragmentEntry>, blocks: seq<seq<Byte>>) {
    |table| == |blocks| && forall i :: 0 <= i < |blocks| ==> FragmentStored(o, disk, table[i], blocks[i])
  }

  lemma FragmentsStoredStable(o: FileOptions, disk: seq<Byte>, more: seq<Byte>, table: seq<FragmentEntry>, blocks: seq<seq<Byte>>)
    requires FragmentsStored(o, disk, table, blocks)
    ensures FragmentsStored(o, disk + more, table, blocks)
  {
    forall i | 0 <= i < |blocks| ensures FragmentStored(o, disk + more, table[i], blocks[i]) {
      assert FragmentStored(o, disk, table[i], blocks[i]);
      hide Mangle;
      var m := Mangle(o.codec, blocks[i], o.rawFragments, DATA_BIT);
      SliceStays(disk, more, table[i].start, |m.bytes|);
    }
  }

  lemma FragmentGoesOut(o: FileOptions, disk: seq<Byte>, table: seq<FragmentEntry>, blocks: seq<seq<Byte>>, data: seq<Byte>)
    requires OptionsOk(o) && FragmentsStored(o, disk, table, blocks) && 0 < |data| <= o.blockSize
    ensures var m := Mangle(o.codec, data, o.rawFragments, DATA_BIT);
            && FragmentsStored(o, disk + m.bytes, table + [FragmentEntry(|disk|, m.word)], blocks + [data])
            && m.bytes == Shorter(o.codec, data, o.rawFragments)
            && m.word == |m.bytes| + (if m.bytes == data then 0x100_0000 else 0)
  {
    var m := Mangle(o.codec, data, o.rawFragments, DATA_BIT);
    MangleStores(o.codec, data, o.rawFragments, DATA_BIT);
    hide Mangle, Shorter;
    FragmentsStoredStable(o, disk, m.bytes, table, blocks);
    assert FragmentStored(o, disk + m.bytes, FragmentEntry(|disk|, m.word), data);
  }

  lemma SliceStays(disk: seq<Byte>, more: seq<Byte>, start: nat, n: nat)
    requires start + n <= |disk|
    ensures (disk + more)[start..start + n] == disk[start..start + n]
  {
  }

  /** The data of a file lies on the disk and its tail in a fragment block. */
  datatype Rec = Rec(info: FileInfo, front: seq<Byte>, tail: seq<Byte>)

  function StoredBytes(o: FileOptions, front: seq<Byte>): seq<Byte>
    requires o.blockSize > 0
  {
    Data(o.codec, o.rawData, Pieces(front, o.blockSize))
  }

  /** Without compression a file is stored as it is, and each size word is the length of its block with the bit set. */
  lemma RawStored(o: FileOptions, front: seq<Byte>)
    requires 0 < o.blockSize <= FILE_MAX_SIZE && o.rawData
    ensures StoredBytes(o, front) == front && |BlockList(o, front)| == |Pieces(front, o.blockSize)|
    ensures forall k :: 0 <= k < |BlockList(o, front)| ==> BlockList(o, front)[k] == 0x100_0000 + |Pieces(front, o.blockSize)[k]|
  {
    var pieces := Pieces(front, o.blockSize);
    PiecesWellCut(front, o.blockSize);
    if pieces != [] { DataStores(o.codec, true, pieces, 0); }
    forall k | 0 <= k < |pieces| ensures Words(o.codec, true, pieces)[k] == 0x100_0000 + |pieces[k]| { DataStores(o.codec, true, pieces, k); }
  }

  function BlockList(o: FileOptions, front: seq<Byte>): seq<nat>
    requires o.blockSize > 0
  {
    Words(o.codec, o.rawData, Pieces(front, o.blockSize))
  }

  ghost predicate RecOk(o: FileOptions, disk: seq<Byte>, all: seq<seq<Byte>>, r: Rec)
    requires o.blockSize > 0
  {
    var f := r.info;
    && f.blockList == BlockList(o, r.front) && f.bytes == |StoredBytes(o, r.front)|
    && f.start + f.bytes <= |disk| && disk[f.start..f.start + f.bytes] == StoredBytes(o, r.front)
    && FragmentOk(all, f.fragment) && f.fragment.size == |r.tail| && TailIn(all, f.fragment) == r.tail
    && f.fragmentChecksum == Checksum(r.tail)
  }

  ghost predicate RecsOk(o: FileOptions, disk: seq<Byte>, all: seq<seq<Byte>>, recs: seq<Rec>)
    requires o.blockSize > 0
  {
    forall k :: 0 <= k < |recs| ==> RecOk(o, disk, all, recs[k])
  }

  /** Fragment blocks grow at their end and more follow. */
  ghost predicate Extends(all: seq<seq<Byte>>, more: seq<seq<Byte>>) {
    |all| <= |more| && forall i :: 0 <= i < |all| ==> all[i] <= more[i]
  }

  lemma TailStays(all: seq<seq<Byte>>, more: seq<seq<Byte>>, f: Fragment)
    requires Extends(all, more) && FragmentOk(all, f)
    ensures FragmentOk(more, f) && TailIn(more, f) == TailIn(all, f)
  {
    if f.size > 0 {
      var a, b := all[f.index.value], more[f.index.value];
      assert b[..|a|] == a;
      assert b[f.offset..f.offset + f.size] == b[..|a|][f.offset..f.offset + f.size];
    }
  }

  lemma RecsStay(o: FileOptions, disk: seq<Byte>, disk': seq<Byte>, all: seq<seq<Byte>>, all': seq<seq<Byte>>, recs: seq<Rec>)
    requires o.blockSize > 0 && RecsOk(o, disk, all, recs) && disk <= disk' && Extends(all, all')
    ensures RecsOk(o, disk', all', recs)
  {
    forall k | 0 <= k < |recs| ensures RecOk(o, disk', all', recs[k]) {
      assert RecOk(o, disk, all, recs[k]);
      TailStays(all, all', recs[k].info.fragment);
      SliceStays(disk, disk'[|disk|..], recs[k].info.start, recs[k].info.bytes);
      assert disk' == disk + disk'[|disk|..];
    }
  }

  // ---------- Finding a duplicate ----------

  /** The newest file with these stored bytes and this tail, by looking at every file. */
  function Newest(o: FileOptions, recs: seq<Rec>, stored: seq<Byte>, tail: seq<Byte>): Option<FileInfo>
    requires o.blockSize > 0
  {
    if recs == [] then None
    else
      var r := recs[|recs| - 1];
      if StoredBytes(o, r.front) == stored && r.tail == tail then Some(r.info) else Newest(o, recs[..|recs| - 1], stored, tail)
  }

  function Added(o: FileOptions, r: Rec, c: nat, data: bool): seq<FileInfo>
    requires o.blockSize > 0
  {
    var stored := StoredBytes(o, r.front);
    if data == (stored != []) && Checksum(if data then stored else r.tail) == c then [r.info] else []
  }

  /** The chain of files with data and checksum c, and that of files without data whose tail has checksum c. */
  function Bucket(o: FileOptions, recs: seq<Rec>, c: nat, data: bool): seq<FileInfo>
    requires o.blockSize > 0
  {
    if recs == [] then []
    else
      Added(o, recs[|recs| - 1], c, data) + Bucket(o, recs[..|recs| - 1], c, data)
  }

  predicate SameFile(disk: seq<Byte>, all: seq<seq<Byte>>, f: FileInfo, stored: seq<Byte>, tail: seq<Byte>) {
    f.bytes == |stored| && Slice(disk, f.start, f.bytes) == stored && TailIn(all, f.fragment) == tail
  }

  function FirstSame(disk: seq<Byte>, all: seq<seq<Byte>>, chain: seq<FileInfo>, stored: seq<Byte>, tail: seq<Byte>): Option<FileInfo> {
    if chain == [] then None
    else if SameFile(disk, all, chain[0], stored, tail) then Some(chain[0])
    else FirstSame(disk, all, chain[1..], stored, tail)
  }

  lemma SameFileOfRec(o: FileOptions, disk: seq<Byte>, all: seq<seq<Byte>>, r: Rec, stored: seq<Byte>, tail: seq<Byte>)
    requires o.blockSize > 0 && RecOk(o, disk, all, r)
    ensures SameFile(disk, all, r.info, stored, tail) <==> StoredBytes(o, r.front) == stored && r.tail == tail
  {
  }

  lemma FirstSameMore(disk: seq<Byte>, all: seq<seq<Byte>>, f: FileInfo, rest: seq<FileInfo>, stored: seq<Byte>, tail: seq<Byte>)
    ensures FirstSame(disk, all, [f] + rest, stored, tail)
         == if SameFile(disk, all, f, stored, tail) then Some(f) else FirstSame(disk, all, rest, stored, tail)
    ensures FirstSame(disk, all, [] + rest, stored, tail) == FirstSame(disk, all, rest, stored, tail)
  {
    hide SameFile;
    assert ([f] + rest)[1..] == rest && [] + rest == rest;
  }

  lemma AddedIs(o: FileOptions, r: Rec, stored: seq<Byte>, tail: seq<Byte>)
    requires o.blockSize > 0
    ensures var data := stored != []; var added := Added(o, r, Checksum(if data then stored else tail), data);
            (added == [r.info] || added == []) && (StoredBytes(o, r.front) == stored && r.tail == tail ==> added == [r.info])
  {
    hide StoredBytes, Checksum;
  }

  lemma NewestMore(o: FileOptions, recs: seq<Rec>, stored: seq<Byte>, tail: seq<Byte>)
    requires o.blockSize > 0 && recs != []
    ensures var r := recs[|recs| - 1];
            Newest(o, recs, stored, tail)
            == if StoredBytes(o, r.front) == stored && r.tail == tail then Some(r.info) else Newest(o, recs[..|recs| - 1], stored, tail)
    ensures forall c, data :: Bucket(o, recs, c, data) == Added(o, recs[|recs| - 1], c, data) + Bucket(o, recs[..|recs| - 1], c, data)
  {
  }

  /** Searching one chain finds what a search of all files would. */
  lemma {:induction false} ChainSearch(o: FileOptions, disk: seq<Byte>, all: seq<seq<Byte>>, recs: seq<Rec>, stored: seq<Byte>, tail: seq<Byte>)
    requires o.blockSize > 0 && RecsOk(o, disk, all, recs)
    ensures var data := stored != [];
            FirstSame(disk, all, Bucket(o, recs, Checksum(if data then stored else tail), data), stored, tail)
            == Newest(o, recs, stored, tail)
  {
    if recs != [] {
      var n := |recs| - 1;
      var data := stored != [];
      var c := Checksum(if data then stored else tail);
      assert RecOk(o, disk, all, recs[n]) && RecsOk(o, disk, all, recs[..n]);
      hide *;
      ChainSearch(o, disk, all, recs[..n], stored, tail);
      SameFileOfRec(o, disk, all, recs[n], stored, tail);
      AddedIs(o, recs[n], stored, tail);
      NewestMore(o, recs, stored, tail);
      FirstSameMore(disk, all, recs[n].info, Bucket(o, recs[..n], c, data), stored, tail);
    }
  }

  ghost predicate OnRecord(recs: seq<Rec>, f: FileInfo) { exists k :: 0 <= k < |recs| && recs[k].info == f }

  /** Every entry of a chain is one of the files. */
  lemma {:induction false} ChainOfRecs(o: FileOptions, recs: seq<Rec>, c: nat, data: bool)
    requires o.blockSize > 0
    ensures forall f :: f in Bucket(o, recs, c, data) ==> OnRecord(recs, f)
  {
    if recs != [] {
      var n := |recs| - 1;
      ChainOfRecs(o, recs[..n], c, data);
      forall f | f in Bucket(o, recs, c, data) ensures OnRecord(recs, f) {
        if f in Bucket(o, recs[..n], c, data) {
          var k :| 0 <= k < |recs[..n]| && recs[..n][k].info == f;
          assert recs[k].info == f;
        }
      }
    }
  }

  /** The file with these stored bytes and this tail that the search gives is on record with them. */
  lemma {:induction false} NewestOnRecord(o: FileOptions, recs: seq<Rec>, stored: seq<Byte>, tail: seq<Byte>) returns (k: nat)
    requires o.blockSize > 0 && Newest(o, recs, stored, tail).Some?
    ensures k < |recs| && Newest(o, recs, stored, tail) == Some(recs[k].info)
    ensures StoredBytes(o, recs[k].front) == stored && recs[k].tail == tail
  {
    k := |recs| - 1;
    if !(StoredBytes(o, recs[k].front) == stored && recs[k].tail == tail) {
      k := NewestOnRecord(o, recs[..k], stored, tail);
    }
  }

  // ---------- Both sides together ----------

  /** The part of a file that is stored in data blocks; the rest is its tail. */
  function Front(o: FileOptions, contents: seq<Byte>): (r: seq<Byte>)
    requires o.blockSize > 0
    ensures r <= contents
  {
    if !o.noFragments && (|contents| < o.blockSize || o.alwaysUseFragments)
    then contents[..|contents| - |contents| % o.blockSize] else contents
  }

  /** memcpy of n entries of a block list; `beyond` is what memory holds behind the list. */
  function CopyList(list: seq<nat>, n: nat, beyond: nat -> nat): (r: seq<nat>)
    ensures |r| == n
  {
    seq(n, i requires 0 <= i < n => if i < |list| then list[i] else beyond(i))
  }

  /** The reader derives the counts with which the writer has worked. */
  lemma CountsAgree(o: FileOptions, contents: seq<Byte>, inode: Inode)
    requires o.blockSize > 0 && inode.size == |contents|
    requires var tail := contents[|Front(o, contents)|..];
             inode.fragment.size == |tail| && (inode.fragment.index.None? <==> tail == [])
    ensures ReaderBlocks(o.blockSize, inode) == |Pieces(Front(o, contents), o.blockSize)|
    ensures ReaderTail(o.blockSize, inode) == inode.fragment.size
  {
    CountPieces(contents, o.blockSize);
    CountFull(contents, o.blockSize);
    if inode.fragment.index.None? { assert Front(o, contents) == contents; }
  }

  /** A file stored for itself is read back. */
  lemma WrittenBack(o: FileOptions, contents: seq<Byte>, disk: seq<Byte>, all: seq<seq<Byte>>, inode: Inode)
    requires OptionsOk(o) && inode.size == |contents| && inode.blockList == BlockList(o, Front(o, contents))
    requires var stored := StoredBytes(o, Front(o, contents));
             inode.start + |stored| <= |disk| && disk[inode.start..inode.start + |stored|] == stored
    requires var tail := contents[|Front(o, contents)|..];
             FragmentOk(all, inode.fragment) && inode.fragment.size == |tail| && TailIn(all, inode.fragment) == tail
    ensures |inode.blockList| == ReaderBlocks(o.blockSize, inode) && Extract(o, disk, all, inode) == contents
    ensures AllRead(o.codec, disk, inode.start, inode.blockList)
  {
    var front := Front(o, contents);
    assert front <= contents && inode.fragment.size == |contents[|front|..]|;
    CountsAgree(o, contents, inode);
    BlocksBack(o, front, disk, inode.start);
    assert inode.fragment.(size := inode.fragment.size) == inode.fragment;
    hide *;
    ExtractIs(o, disk, all, inode, front, contents[|front|..]);
    assert contents == front + contents[|front|..];
  }

  lemma ExtractIs(o: FileOptions, disk: seq<Byte>, all: seq<seq<Byte>>, inode: Inode, front: seq<Byte>, tail: seq<Byte>)
    requires o.blockSize > 0 && ReadBlocks(o.codec, disk, inode.start, inode.blockList) == front
    requires TailIn(all, inode.fragment.(size := ReaderTail(o.blockSize, inode))) == tail
    ensures Extract(o, disk, all, inode) == front + tail
  {
  }

  lemma BlocksBack(o: FileOptions, front: seq<Byte>, disk: seq<Byte>, start: nat)
    requires OptionsOk(o)
    requires start + |StoredBytes(o, front)| <= |disk| && disk[start..start + |StoredBytes(o, front)|] == StoredBytes(o, front)
    ensures ReadBlocks(o.codec, disk, start, BlockList(o, front)) == front
    ensures AllRead(o.codec, disk, start, BlockList(o, front))
    ensures |BlockList(o, front)| == |Pieces(front, o.blockSize)|
  {
    PiecesWellCut(front, o.blockSize);
    BlocksRoundTrip(o.codec, o.rawData, Pieces(front, o.blockSize), disk, start);
  }

  /** A file that shares the blocks of another is read back exactly when the two block lists agree. */
  lemma SharedBack(o: FileOptions, contents: seq<Byte>, disk: seq<Byte>, all: seq<seq<Byte>>, r: Rec, inode: Inode, beyond: nat -> nat)
    requires OptionsOk(o) && RecOk(o, disk, all, r) && inode.size == |contents|
    requires StoredBytes(o, r.front) == StoredBytes(o, Front(o, contents)) && r.tail == contents[|Front(o, contents)|..]
    requires inode.start == r.info.start && inode.fragment == r.info.fragment
    requires inode.blockList == CopyList(r.info.blockList, |Pieces(Front(o, contents), o.blockSize)|, beyond)
    ensures |inode.blockList| == ReaderBlocks(o.blockSize, inode)
    ensures |inode.blockList| <= |r.info.blockList| && Extract(o, disk, all, inode) == contents
       <==> r.info.blockList == BlockList(o, Front(o, contents))
  {
    var front, bs := Front(o, contents), o.blockSize;
    var v, w := r.info.blockList, BlockList(o, front);
    CountsAgree(o, contents, inode);
    SharedBlocksExactly(o.codec, o.rawData, bs, r.front, front, disk, inode.start);
    if |w| <= |v| {
      assert inode.blockList == v[..|w|];
      SameFront(ReadBlocks(o.codec, disk, inode.start, v[..|w|]), front, r.tail, contents);
    }
  }

  lemma SameFront(read: seq<Byte>, front: seq<Byte>, tail: seq<Byte>, contents: seq<Byte>)
    requires front <= contents && contents[|front|..] == tail
    ensures read + tail == contents <==> read == front
  {
    assert contents == front + tail;
    if read + tail == contents { assert read == contents[..|read|]; }
  }

  /** The file is stored, for itself or as a share of the one in r: its inode points at the data of r. */
  ghost predicate PointsAt(o: FileOptions, r: Rec, inode: Inode, contents: seq<Byte>, beyond: nat -> nat)
    requires o.blockSize > 0
  {
    var front := Front(o, contents);
    && StoredBytes(o, r.front) == StoredBytes(o, front) && r.tail == contents[|front|..]
    && inode == Inode(|contents|, r.info.start, CopyList(r.info.blockList, |Pieces(front, o.blockSize)|, beyond), r.info.fragment)
  }

  /** What has been stored is read alike for ever, whatever is stored behind it. */
  lemma ExtractStable(o: FileOptions, disk: seq<Byte>, more: seq<Byte>, all: seq<seq<Byte>>, all': seq<seq<Byte>>, inode: Inode)
    requires o.blockSize > 0 && inode.start + Total(inode.blockList) <= |disk|
    requires FragmentOk(all, inode.fragment.(size := ReaderTail(o.blockSize, inode))) && Extends(all, all')
    ensures Extract(o, disk + more, all', inode) == Extract(o, disk, all, inode)
  {
    ReadBlocksStable(o.codec, disk, more, inode.start, inode.blockList);
    TailStays(all, all', inode.fragment.(size := ReaderTail(o.blockSize, inode)));
  }

  // ---------- The writer ----------

  lemma SliceOfSlice(s: seq<Byte>, start: nat, n: nat, a: nat, b: nat)
    requires start + n <= |s| && a <= b <= n
    ensures s[start..start + n][a..b] == s[start + a..start + b]
  {
    var x, y := s[start..start + n][a..b], s[start + a..start + b];
    forall i | 0 <= i < |x| ensures x[i] == y[i] {
    }
  }

  lemma BucketsGrow(o: FileOptions, recs: seq<Rec>, r: Rec)
    requires o.blockSize > 0
    ensures forall c, data :: Bucket(o, recs + [r], c, data) == Added(o, r, c, data) + Bucket(o, recs, c, data)
  {
    assert (recs + [r])[..|recs|] == recs;
  }

  /** The fragment block that goes to the disk because a tail does not fit into it any more. */
  function Flushed(o: FileOptions, fragmentData: seq<Byte>, tail: seq<Byte>): seq<Byte> {
    if tail != [] && |fragmentData| + |tail| > o.blockSize then Shorter(o.codec, fragmentData, o.rawFragments) else []
  }

  /** A tail put behind what the block in memory holds; that block may be a new one. */
  lemma Filled(was: seq<seq<Byte>>, old': seq<Byte>, blocks: seq<seq<Byte>>, data: seq<Byte>, buff: seq<Byte>)
    requires buff != [] && if blocks == was then data == old' else blocks == was + [old'] && data == []
    ensures var f := Fragment(Some(|blocks|), |data|, |buff|); var all := blocks + [data + buff];
            && FragmentOk(all, f) && TailIn(all, f) == buff && Extends(blocks + [data], all) && Extends(was + [old'], all)
            && forall g: Fragment :: FragmentOk(was + [old'], g) && g.index == f.index ==> g.offset + g.size <= f.offset
  {
    assert (data + buff)[|data|..|data| + |buff|] == buff;
  }

  /** So many blocks are stored of a file, and so many bytes of it go to a fragment. */
  ghost predicate FrontCounts(o: FileOptions, contents: seq<Byte>, blocks: nat, fragBytes: nat)
    requires o.blockSize > 0
  {
    var front := Front(o, contents);
    && |front| == |contents| - fragBytes && fragBytes < o.blockSize && blocks == |Pieces(front, o.blockSize)|
    && (front == contents || |front| == blocks * o.blockSize)
  }

  class ImageWriter {
    const o: FileOptions
    var disk: seq<Byte>
    var fragmentData: seq<Byte>
    var fragmentTable: seq<FragmentEntry>
    var cachedFrag: Option<nat>
    var cachedFragment: seq<Byte>
    const dupl: array<seq<FileInfo>>
    const fragDups: array<seq<FileInfo>>
    ghost var blocks: seq<seq<Byte>>   // the contents of the fragment blocks on the disk
    ghost var recs: seq<Rec>           // the files recorded for duplicate checking

    ghost function All(): seq<seq<Byte>>
      reads this
    {
      blocks + [fragmentData]
    }

    ghost predicate DiskOk()
      reads this
    {
      && OptionsOk(o) && FragmentsStored(o, disk, fragmentTable, blocks) && |fragmentData| <= o.blockSize
      && (cachedFrag.Some? ==> cachedFrag.value < |blocks| && cachedFragment == blocks[cachedFrag.value])
    }

    ghost predicate ChainsOk()
      reads this`recs, dupl, fragDups
      requires o.blockSize > 0
    {
      && dupl.Length == 65536 && fragDups.Length == 65536 && dupl != fragDups
      && (forall c :: 0 <= c < 65536 ==> dupl[c] == Bucket(o, recs, c, true))
      && (forall c :: 0 <= c < 65536 ==> fragDups[c] == Bucket(o, recs, c, false))
    }

    ghost predicate Valid()
      reads this, dupl, fragDups
    {
      DiskOk() && RecsOk(o, disk, All(), recs) && ChainsOk()
    }

    constructor (o: FileOptions, disk: seq<Byte>)
      requires OptionsOk(o)
      ensures Valid() && fresh(dupl) && fresh(fragDups) && this.o == o && this.disk == disk && recs == []
    {
      this.o, this.disk := o, disk;
      fragmentData, fragmentTable, cachedFrag, cachedFragment := [], [], None, [];
      dupl := new seq<FileInfo>[65536](_ => []);
      fragDups := new seq<FileInfo>[65536](_ => []);
      blocks, recs := [], [];
    }

    /** The fragment block in memory goes to the disk. */
    method WriteFragment()
      requires DiskOk() && RecsOk(o, disk, All(), recs)
      modifies this`disk, this`fragmentTable, this`fragmentData, this`blocks
      ensures DiskOk() && RecsOk(o, disk, All(), recs)
      ensures fragmentData == [] && old(disk) <= disk && Extends(old(All()), All())
      ensures blocks == if old(fragmentData) == [] then old(blocks) else old(blocks) + [old(fragmentData)]
      ensures old(fragmentData) == [] ==> disk == old(disk) && fragmentTable == old(fragmentTable)
      ensures old(fragmentData) != [] ==>
                var body := Shorter(o.codec, old(fragmentData), o.rawFragments);
                && disk == old(disk) + body
                && fragmentTable == old(fragmentTable)
                     + [FragmentEntry(|old(disk)|, |body| + (if body == old(fragmentData) then 0x100_0000 else 0))]
    {
      if |fragmentData| == 0 { return; }
      FragmentGoesOut(o, disk, fragmentTable, blocks, fragmentData);
      ghost var all := All();
      var m := Mangle(o.codec, fragmentData, o.rawFragments, DATA_BIT);
      hide Mangle, Shorter, FragmentsStored;
      fragmentTable := fragmentTable + [FragmentEntry(|disk|, m.word)];
      ghost var was := disk;
      disk := disk + m.bytes;
      blocks := blocks + [fragmentData];
      fragmentData := [];
      RecsStay(o, was, disk, all, All(), recs);
    }

    /** get_and_fill_fragment. */
    method GetAndFillFragment(buff: seq<Byte>) returns (f: Fragment)
      requires DiskOk() && RecsOk(o, disk, All(), recs) && |buff| < o.blockSize
      modifies this`disk, this`fragmentTable, this`fragmentData, this`blocks
      ensures DiskOk() && RecsOk(o, disk, All(), recs)
      ensures old(disk) <= disk && Extends(old(All()), All())
      ensures FragmentOk(All(), f) && f.size == |buff| && TailIn(All(), f) == buff
      ensures forall g: Fragment :: FragmentOk(old(All()), g) && g.index == f.index ==> g.offset + g.size <= f.offset || buff == []
      ensures disk == old(disk) + Flushed(o, old(fragmentData), buff)
      ensures var full := buff != [] && |old(fragmentData)| + |buff| > o.blockSize;
              && fragmentData == (if full then buff else old(fragmentData) + buff)
              && f == if buff == [] then Fragment(None, 0, 0)
                      else Fragment(Some(|old(fragmentTable)| + if full then 1 else 0), |fragmentData| - |buff|, |buff|)
    {
      hide FragmentStored, RecsOk, Shorter;
      if |buff| == 0 { return Fragment(None, 0, 0); }
      ghost var was, data := blocks, fragmentData;
      if |fragmentData| + |buff| > o.blockSize { WriteFragment(); }
      f := Fragment(Some(|fragmentTable|), |fragmentData|, |buff|);
      ghost var all := All();
      Filled(was, data, blocks, fragmentData, buff);
      fragmentData := fragmentData + buff;
      RecsStay(o, disk, disk, all, All(), recs);
    }

    /** get_fragment through the cache of `duplicate`. */
    method CacheFragment(i: nat)
      requires DiskOk() && i < |blocks|
      modifies this`cachedFrag, this`cachedFragment
      ensures DiskOk() && cachedFrag == Some(i) && cachedFragment == blocks[i]
    {
      if cachedFrag != Some(i) {
        var e := fragmentTable[i];
        assert FragmentStored(o, disk, e, blocks[i]);
        FragmentReads(o, disk, e, blocks[i]);
        cachedFragment := ReadData(o.codec, disk, e.start, e.word);
        cachedFrag := Some(i);
      }
    }

    /** The comparison of tails; `frag` is that of a file on record. */
    method SameTail(frag: Fragment, tail: seq<Byte>) returns (same: bool)
      requires DiskOk() && FragmentOk(All(), frag) && frag.size == |tail|
      modifies this`cachedFrag, this`cachedFragment
      ensures DiskOk() && same == (TailIn(All(), frag) == tail)
    {
      if |tail| == 0 { return true; }
      if frag.index.value == |fragmentTable| {
        same := fragmentData[frag.offset..frag.offset + frag.size] == tail;
      } else {
        CacheFragment(frag.index.value);
        same := cachedFragment[frag.offset..frag.offset + frag.size] == tail;
      }
    }

    /** The loop of `duplicate` over the data of one file: pieces of up to FILE_MAX_SIZE bytes. */
    method SameData(start: nat, data: seq<Byte>) returns (same: bool)
      requires start + |data| <= |disk|
      ensures same == (disk[start..start + |data|] == data)
    {
      var left := |data|;
      while left > 0
        invariant 0 <= left <= |data|
        invariant disk[start..start + |data| - left] == data[..|data| - left]
      {
        var avail := if left > FILE_MAX_SIZE then FILE_MAX_SIZE else left;
        var at := |data| - left;
        if data[at..at + avail] != disk[start + at..start + at + avail] {
          SliceOfSlice(disk, start, |data|, at, at + avail);
          return false;
        }
        assert data[..at + avail] == data[..at] + data[at..at + avail];
        assert disk[start..start + at + avail] == disk[start..start + at] + disk[start + at..start + at + avail];
        left := left - avail;
      }
      return true;
    }

    /** `duplicate`: a file with the same stored bytes and the same tail is found exactly when there is
        one on record, and of several the newest. */
    method Duplicate(stored: seq<Byte>, tail: seq<Byte>) returns (found: Option<FileInfo>)
      requires Valid()
      modifies this`cachedFrag, this`cachedFragment
      ensures Valid() && found == Newest(o, recs, stored, tail)
    {
      var checksum := GetChecksum(stored);
      var fragmentChecksum := GetChecksum(tail);
      var data := |stored| > 0;
      var chain := if data then dupl[checksum] else fragDups[fragmentChecksum];
      ChainSearch(o, disk, All(), recs, stored, tail);
      ChainOfRecs(o, recs, if data then checksum else fragmentChecksum, data);
      found := Search(chain, stored, tail, fragmentChecksum);
    }

    method Search(chain: seq<FileInfo>, stored: seq<Byte>, tail: seq<Byte>, fragmentChecksum: nat) returns (found: Option<FileInfo>)
      requires DiskOk() && RecsOk(o, disk, All(), recs) && fragmentChecksum == Checksum(tail)
      requires forall f :: f in chain ==> OnRecord(recs, f)
      modifies this`cachedFrag, this`cachedFragment
      ensures DiskOk() && found == FirstSame(disk, All(), chain, stored, tail)
    {
      var i := 0;
      while i < |chain|
        invariant 0 <= i <= |chain| && DiskOk()
        invariant FirstSame(disk, All(), chain[i..], stored, tail) == FirstSame(disk, All(), chain, stored, tail)
      {
        assert chain[i..][1..] == chain[i + 1..];
        var same := SameFileAs(chain[i], stored, tail, fragmentChecksum);
        if same { return Some(chain[i]); }
        i := i + 1;
      }
      return None;
    }

    method SameFileAs(f: FileInfo, stored: seq<Byte>, tail: seq<Byte>, fragmentChecksum: nat) returns (same: bool)
      requires DiskOk() && RecsOk(o, disk, All(), recs) && fragmentChecksum == Checksum(tail)
      requires OnRecord(recs, f)
      modifies this`cachedFrag, this`cachedFragment
      ensures DiskOk() && same == SameFile(disk, All(), f, stored, tail)
    {
      ghost var k :| 0 <= k < |recs| && recs[k].info == f;
      assert RecOk(o, disk, All(), recs[k]);
      same := false;
      if |stored| == f.bytes && |tail| == f.fragment.size && fragmentChecksum == f.fragmentChecksum {
        same := SameData(f.start, stored);
        if same { same := SameTail(f.fragment, tail); }
      }
    }

    /** The new file is put at the head of its chain. */
    method Record(front: seq<Byte>, tail: seq<Byte>, info: FileInfo)
      requires Valid() && RecOk(o, disk, All(), Rec(info, front, tail))
      modifies this`recs, dupl, fragDups
      ensures Valid() && recs == old(recs) + [Rec(info, front, tail)]
    {
      var stored := StoredBytes(o, front);
      var r := Rec(info, front, tail);
      BucketsGrow(o, recs, r);
      assert RecsOk(o, disk, All(), recs + [r]);
      hide Bucket, RecOk, RecsOk, Checksum, StoredBytes, FragmentsStored;
      if |stored| > 0 {
        var c := GetChecksum(stored);
        dupl[c] := [info] + dupl[c];
      } else {
        var c := GetChecksum(tail);
        fragDups[c] := [info] + fragDups[c];
      }
      recs := recs + [r];
    }

    method AppendData(buffer: seq<Byte>)
      requires DiskOk() && RecsOk(o, disk, All(), recs)
      modifies this`disk
      ensures DiskOk() && RecsOk(o, disk, All(), recs) && disk == old(disk) + buffer
    {
      ghost var was := disk;
      FragmentsStoredStable(o, disk, buffer, fragmentTable, blocks);
      disk := disk + buffer;
      RecsStay(o, was, disk, All(), All(), recs);
    }

    /** The loop of write_file: block by block the data is compressed into a buffer. */
    method CompressBlocks(contents: seq<Byte>, count: nat, ghost front: seq<Byte>)
      returns (buffer: seq<Byte>, blockList: seq<nat>)
      requires OptionsOk(o) && front <= contents
      requires count == |Pieces(front, o.blockSize)|
      requires front == contents || |front| == count * o.blockSize
      ensures buffer == StoredBytes(o, front) && blockList == BlockList(o, front)
    {
      buffer, blockList := [], [];
      var block: nat := 0;
      ghost var done: seq<seq<Byte>> := [];
      ghost var pos: nat := 0;
      assert front[0..] == front;
      assert Packed(o, front, block, pos, done, buffer, blockList);
      hide Packed, Mangle, Pieces, StoredBytes, BlockList;
      while block < count
        invariant block <= count && Packed(o, front, block, pos, done, buffer, blockList)
      {
        var from := block * o.blockSize;
        var available := if |contents| - from > o.blockSize then o.blockSize else |contents| - from;
        PackedStep(o, front, contents, count, block, pos, done, buffer, blockList, available);
        var m := Mangle(o.codec, contents[from..from + available], o.rawData, DATA_BIT);
        blockList := blockList + [m.word];
        buffer := buffer + m.bytes;
        done := done + [contents[from..from + available]];
        pos := pos + available;
        block := block + 1;
      }
      PackedDone(o, front, block, pos, done, buffer, blockList);
    }

    lemma Shared(contents: seq<Byte>, beyond: nat -> nat, inode: Inode) returns (r: Rec)
      requires Valid()
      requires var front := Front(o, contents);
               var same := Newest(o, recs, StoredBytes(o, front), contents[|front|..]);
               same.Some? && inode == Inode(|contents|, same.value.start,
                 CopyList(same.value.blockList, |Pieces(front, o.blockSize)|, beyond), same.value.fragment)
      ensures |inode.blockList| == ReaderBlocks(o.blockSize, inode)
      ensures r in recs && PointsAt(o, r, inode, contents, beyond)
      ensures var front := Front(o, contents);
              var same := Newest(o, recs, StoredBytes(o, front), contents[|front|..]);
              |inode.blockList| <= |same.value.blockList| && Extract(o, disk, All(), inode) == contents
              <==> same.value.blockList == BlockList(o, front)
    {
      var front := Front(o, contents);
      var k := NewestOnRecord(o, recs, StoredBytes(o, front), contents[|front|..]);
      r := recs[k];
      assert RecOk(o, disk, All(), r);
      SharedBack(o, contents, disk, All(), r, inode, beyond);
    }

    method CountBlocks(contents: seq<Byte>) returns (blocks: nat, fragBytes: nat)
      requires OptionsOk(o)
      ensures FrontCounts(o, contents, blocks, fragBytes)
    {
      BlocksOfFront(o, contents);
      hide *;
      var readSize := |contents|;
      blocks := (readSize + o.blockSize - 1) / o.blockSize;
      fragBytes := 0;
      if !o.noFragments && (readSize < o.blockSize || o.alwaysUseFragments) {
        blocks := readSize / o.blockSize;
        fragBytes := readSize % o.blockSize;
      }
    }

    /** The first half of write_file: the blocks of the file are compressed and its tail is read. */
    method ReadFile(contents: seq<Byte>) returns (buffer: seq<Byte>, blockList: seq<nat>, tail: seq<Byte>)
      requires OptionsOk(o)
      ensures var front := Front(o, contents);
              && buffer == StoredBytes(o, front) && blockList == BlockList(o, front)
              && |blockList| == |Pieces(front, o.blockSize)| && tail == contents[|front|..] && |tail| < o.blockSize
    {
      var blocks, fragBytes := CountBlocks(contents);
      hide Front, Pieces, StoredBytes;
      buffer, blockList := CompressBlocks(contents, blocks, Front(o, contents));
      tail := contents[|contents| - fragBytes..];
    }

    /** write_file. A file is stored for itself, and is then read back, unless the same stored bytes are on
        record; then it shares them, and is read back exactly when its block list is the same as well. */
    method WriteFile(contents: seq<Byte>, beyond: nat -> nat) returns (inode: Inode, duplicate: bool, ghost r: Rec)
      requires Valid()
      modifies this, dupl, fragDups
      ensures RecOk(o, disk, All(), r) && PointsAt(o, r, inode, contents, beyond)
      ensures if duplicate then r in old(recs) else r.front == Front(o, contents)
      ensures recs == if duplicate || !o.duplicateChecking then old(recs) else old(recs) + [r]
      ensures var front := Front(o, contents); var tail := contents[|front|..];
              if duplicate then disk == old(disk) && fragmentData == old(fragmentData)
              else inode.start == |old(disk)| && disk == old(disk) + StoredBytes(o, front) + Flushed(o, old(fragmentData), tail)
      ensures Valid() && old(disk) <= disk && Extends(old(All()), All()) && old(recs) <= recs
      ensures |inode.blockList| == ReaderBlocks(o.blockSize, inode)
      ensures var front := Front(o, contents);
              var same := Newest(o, old(recs), StoredBytes(o, front), contents[|front|..]);
              && duplicate == (o.duplicateChecking && same.Some?)
              && (duplicate ==> disk == old(disk))
              && (duplicate ==>
                    (|inode.blockList| <= |same.value.blockList| && Extract(o, disk, All(), inode) == contents
                     <==> same.value.blockList == BlockList(o, front)))
      ensures !duplicate ==> Extract(o, disk, All(), inode) == contents && AllRead(o.codec, disk, inode.start, inode.blockList)
    {
      var buffer, blockList, tail := ReadFile(contents);
      hide Front, Extract, AllRead, Pieces, StoredBytes, BlockList, Newest, CopyList, ReaderBlocks;
      if o.duplicateChecking {
        var found := Duplicate(buffer, tail);
        if found.Some? {
          var f := found.value;
          inode := Inode(|contents|, f.start, CopyList(f.blockList, |blockList|, beyond), f.fragment);
          r := Shared(contents, beyond, inode);
          return inode, true, r;
        }
      }
      inode, r := StoreFile(contents, buffer, blockList, tail, beyond);
      duplicate := false;
    }

    method StoreFile(contents: seq<Byte>, buffer: seq<Byte>, blockList: seq<nat>, tail: seq<Byte>, ghost beyond: nat -> nat)
      returns (inode: Inode, ghost r: Rec)
      requires Valid() && buffer == StoredBytes(o, Front(o, contents)) && blockList == BlockList(o, Front(o, contents))
      requires tail == contents[|Front(o, contents)|..] && |tail| < o.blockSize
      modifies this, dupl, fragDups
      ensures Valid() && old(disk) <= disk && Extends(old(All()), All())
      ensures RecOk(o, disk, All(), r) && PointsAt(o, r, inode, contents, beyond) && r.front == Front(o, contents)
      ensures recs == if o.duplicateChecking then old(recs) + [r] else old(recs)
      ensures |inode.blockList| == ReaderBlocks(o.blockSize, inode) && Extract(o, disk, All(), inode) == contents
      ensures AllRead(o.codec, disk, inode.start, inode.blockList)
      ensures inode.start == |old(disk)| && disk == old(disk) + buffer + Flushed(o, old(fragmentData), tail)
    {
      var start := |disk|;
      AppendData(buffer);
      ghost var was := disk;
      var fragment := GetAndFillFragment(tail);
      SliceStays(was, disk[|was|..], start, |buffer|);
      assert disk == was + disk[|was|..];
      inode := Inode(|contents|, start, blockList, fragment);
      r := Rec(FileInfo(|buffer|, start, blockList, Checksum(tail), fragment), Front(o, contents), tail);
      assert CopyList(blockList, |blockList|, beyond) == blockList;
      hide StoredBytes, BlockList, Front, Checksum;
      WrittenBack(o, contents, disk, All(), inode);
      if o.duplicateChecking {
        var fragmentChecksum := GetChecksum(tail);
        Record(Front(o, contents), tail, FileInfo(|buffer|, start, blockList, fragmentChecksum, fragment));
      }
    }
  }

  lemma BlocksOfFront(o: FileOptions, contents: seq<Byte>)
    requires o.blockSize > 0
    ensures var n, bs := |contents|, o.blockSize;
            && n / bs >= 0 && n % bs >= 0 && (n + bs - 1) / bs >= 0
            && if !o.noFragments && (n < bs || o.alwaysUseFragments) then FrontCounts(o, contents, n / bs, n % bs)
               else FrontCounts(o, contents, (n + bs - 1) / bs, 0)
  {
    CountPieces(contents, o.blockSize);
    CountFull(contents, o.blockSize);
  }

  /** The first blocks of `front`, up to position pos, are in the buffer. */
  ghost predicate Packed(o: FileOptions, front: seq<Byte>, block: nat, pos: nat, done: seq<seq<Byte>>,
                         buffer: seq<Byte>, blockList: seq<nat>)
  {
    && o.blockSize > 0
    && block == |done| && pos <= |front| && (pos < |front| ==> pos == block * o.blockSize)
    && Pieces(front, o.blockSize) == done + Pieces(front[pos..], o.blockSize)
    && buffer == Data(o.codec, o.rawData, done) && blockList == Words(o.codec, o.rawData, done)
  }

  lemma PackedStep(o: FileOptions, front: seq<Byte>, contents: seq<Byte>, count: nat, block: nat, pos: nat,
                   done: seq<seq<Byte>>, buffer: seq<Byte>, blockList: seq<nat>, available: int)
    requires Packed(o, front, block, pos, done, buffer, blockList) && block < count == |Pieces(front, o.blockSize)|
    requires front <= contents && (front == contents || |front| == count * o.blockSize)
    requires var left := |contents| - block * o.blockSize; available == if left > o.blockSize then o.blockSize else left
    ensures pos == block * o.blockSize && 0 < available && pos + available <= |contents|
    ensures var piece := contents[pos..pos + available]; var m := Mangle(o.codec, piece, o.rawData, DATA_BIT);
            Packed(o, front, block + 1, pos + available, done + [piece], buffer + m.bytes, blockList + [m.word])
  {
    NextPiece(front, contents, pos, block, count, o.blockSize, available);
    hide Mangle;
    var piece := contents[pos..pos + available];
    AppendPiece(o.codec, o.rawData, done, piece);
    var rest := Pieces(front[pos + available..], o.blockSize);
    assert done + ([piece] + rest) == done + [piece] + rest;
  }

  lemma PackedDone(o: FileOptions, front: seq<Byte>, block: nat, pos: nat, done: seq<seq<Byte>>,
                   buffer: seq<Byte>, blockList: seq<nat>)
    requires Packed(o, front, block, pos, done, buffer, blockList) && block == |Pieces(front, o.blockSize)|
    ensures buffer == StoredBytes(o, front) && blockList == BlockList(o, front)
  {
    assert Pieces(front[pos..], o.blockSize) == [];
    assert done + [] == done;
  }

  lemma AppendPiece(z: Codec, raw: bool, done: seq<seq<Byte>>, piece: seq<Byte>)
    ensures var m := Mangle(z, piece, raw, DATA_BIT);
            && Data(z, raw, done + [piece]) == Data(z, raw, done) + m.bytes
            && Words(z, raw, done + [piece]) == Words(z, raw, done) + [m.word]
  {
    var all := done + [piece];
    FirstOfData(z, raw, all, |done|);
    assert all[..|done|] == done && all[|done|..] == [piece];
    assert [piece][1..] == [];
    assert Words(z, raw, all)[|done|] == Mangle(z, piece, raw, DATA_BIT).word by { WordAt(z, raw, all, |done|); }
  }

  lemma {:induction false} WordAt(z: Codec, raw: bool, pieces: seq<seq<Byte>>, k: nat)
    requires k < |pieces|
    ensures Words(z, raw, pieces)[k] == Mangle(z, pieces[k], raw, DATA_BIT).word
  {
    if k > 0 { WordAt(z, raw, pieces[1..], k - 1); }
  }

  /** The next block that write_file reads is the next piece of what is to be stored as blocks. */
  lemma NextPiece(front: seq<Byte>, contents: seq<Byte>, pos: nat, block: nat, count: nat, bs: nat, available: int)
    requires bs > 0 && front <= contents && pos <= |front| && block < count
    requires pos < |front| ==> pos == block * bs
    requires front == contents || |front| == count * bs
    requires block + |Pieces(front[pos..], bs)| == count
    requires available == if |contents| - block * bs > bs then bs else |contents| - block * bs
    ensures pos == block * bs && 0 < available && pos + available <= |front|
    ensures Pieces(front[pos..], bs) == [contents[pos..pos + available]] + Pieces(front[pos + available..], bs)
    ensures pos + available < |front| ==> pos + available == (block + 1) * bs
  {
    var rest := front[pos..];
    assert rest != [];
    if front != contents {
      Times(block + 1, count, bs);
    }
    assert contents[pos..pos + available] == rest[..available];
    assert front[pos + available..] == rest[available..];
    if |rest| <= bs {
      assert rest[..available] == rest && rest[available..] == [];
    }
  }
}
