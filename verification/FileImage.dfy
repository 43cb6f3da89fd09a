/** Files packed into an image and taken out of it again. */
module FileImage {
  import opened Options
  import opened Compression
  import opened FileBlocks
  import opened FileWriter
  import opened FileReader

  function Tail(o: FileOptions, contents: seq<Byte>): seq<Byte>
    requires o.blockSize > 0
  {
    contents[|Front(o, contents)|..]
  }

  /** What duplicate checking takes for the same file: the same bytes stored, and the same tail. */
  predicate SameStored(o: FileOptions, a: seq<Byte>, b: seq<Byte>)
    requires o.blockSize > 0
  {
    StoredBytes(o, Front(o, a)) == StoredBytes(o, Front(o, b)) && Tail(o, a) == Tail(o, b)
  }

  /** The first of the files that is taken for the same. */
  function First(o: FileOptions, files: seq<seq<Byte>>, contents: seq<Byte>): (r: nat)
    requires o.blockSize > 0
    ensures r <= |files| && (r < |files| ==> SameStored(o, files[r], contents))
    ensures forall i :: 0 <= i < r ==> !SameStored(o, files[i], contents)
  {
    if files == [] || SameStored(o, files[0], contents) then 0 else First(o, files[1..], contents) + 1
  }

  /** The file whose data file k is given. */
  function Original(o: FileOptions, files: seq<seq<Byte>>, k: nat): (r: nat)
    requires o.blockSize > 0 && k < |files|
    ensures r <= k && SameStored(o, files[r], files[k])
  {
    if o.duplicateChecking then First(o, files, files[k]) else k
  }

  /** Of two files that are taken for the same, the block lists agree exactly when the files do. */
  lemma ListsTellApart(o: FileOptions, a: seq<Byte>, b: seq<Byte>)
    requires OptionsOk(o) && SameStored(o, a, b)
    ensures BlockList(o, Front(o, a)) == BlockList(o, Front(o, b)) <==> a == b
  {
    if BlockList(o, Front(o, a)) == BlockList(o, Front(o, b)) {
      var stored := StoredBytes(o, Front(o, a));
      assert stored[0..0 + |stored|] == stored;
      BlocksBack(o, Front(o, a), stored, 0);
      BlocksBack(o, Front(o, b), stored, 0);
      assert a == Front(o, a) + Tail(o, a) && b == Front(o, b) + Tail(o, b);
    }
  }

  lemma FrontAndTail(o: FileOptions, contents: seq<Byte>)
    requires o.blockSize > 0
    ensures contents == Front(o, contents) + Tail(o, contents)
  {
  }

  /** Without compression no two files are taken for the same, so each comes back. */
  lemma RawTellsApart(o: FileOptions, files: seq<seq<Byte>>, k: nat)
    requires OptionsOk(o) && o.rawData && k < |files|
    ensures files[Original(o, files, k)] == files[k]
  {
    var a, b := files[Original(o, files, k)], files[k];
    assert SameStored(o, a, b);
    RawStored(o, Front(o, a));
    RawStored(o, Front(o, b));
    FrontAndTail(o, a);
    FrontAndTail(o, b);
    hide Front, Tail, Original, BlockList, StoredBytes;
  }

  lemma {:induction false} NewestFinds(o: FileOptions, recs: seq<Rec>, r: Rec)
    requires o.blockSize > 0 && r in recs
    ensures Newest(o, recs, StoredBytes(o, r.front), r.tail).Some?
  {
    var n := |recs| - 1;
    if recs[n] != r {
      assert r in recs[..n];
      NewestFinds(o, recs[..n], r);
    }
  }

  // ---------- Packing ----------

  ghost predicate KeptAt(o: FileOptions, files: seq<seq<Byte>>, k: nat, r: Rec)
    requires o.blockSize > 0 && k < |files|
  {
    && r.front == Front(o, files[Original(o, files, k)]) && r.tail == Tail(o, files[k])
    && StoredBytes(o, r.front) == StoredBytes(o, Front(o, files[k]))
  }

  /** Of the first n files, kept[k] is where the data of file k lies; with duplicate checking these are the
      files on record. */
  ghost predicate Kept(o: FileOptions, files: seq<seq<Byte>>, n: nat, kept: seq<Rec>, recs: seq<Rec>) {
    && o.blockSize > 0 && |kept| == n <= |files| && (forall k :: 0 <= k < n ==> KeptAt(o, files, k, kept[k]))
    && (o.duplicateChecking ==> forall r :: r in recs <==> r in kept)
  }

  lemma KeptStep(o: FileOptions, files: seq<seq<Byte>>, n: nat, kept: seq<Rec>, recs: seq<Rec>, r: Rec, duplicate: bool, recs': seq<Rec>)
    requires Kept(o, files, n, kept, recs) && n < |files|
    requires StoredBytes(o, r.front) == StoredBytes(o, Front(o, files[n])) && r.tail == Tail(o, files[n])
    requires duplicate == (o.duplicateChecking && Newest(o, recs, StoredBytes(o, Front(o, files[n])), Tail(o, files[n])).Some?)
    requires if duplicate then r in recs else r.front == Front(o, files[n])
    requires recs' == if duplicate || !o.duplicateChecking then recs else recs + [r]
    ensures Kept(o, files, n + 1, kept + [r], recs')
  {
    hide StoredBytes, Front, Newest;
    if o.duplicateChecking {
      var i := First(o, files, files[n]);
      if duplicate {
        var k :| 0 <= k < n && kept[k] == r;
        assert KeptAt(o, files, k, kept[k]);
        SameClass(o, files, files[k], files[n]);
      } else if i < n {
        assert KeptAt(o, files, i, kept[i]) && kept[i] in recs;
        NewestFinds(o, recs, kept[i]);
      }
    }
    assert KeptAt(o, files, n, r);
    forall k | 0 <= k < n + 1 ensures KeptAt(o, files, k, (kept + [r])[k]) {
      if k < n { assert KeptAt(o, files, k, kept[k]); }
    }
  }

  lemma {:induction false} SameClass(o: FileOptions, files: seq<seq<Byte>>, a: seq<Byte>, b: seq<Byte>)
    requires o.blockSize > 0 && SameStored(o, a, b)
    ensures First(o, files, a) == First(o, files, b)
  {
    if files != [] { SameClass(o, files[1..], a, b); }
  }

  ghost predicate AllPoint(o: FileOptions, files: seq<seq<Byte>>, kept: seq<Rec>, inodes: seq<Inode>, beyond: nat -> nat) {
    && o.blockSize > 0 && |kept| == |inodes| <= |files|
    && forall k :: 0 <= k < |inodes| ==> PointsAt(o, kept[k], inodes[k], files[k], beyond)
  }

  method Pack(w: ImageWriter, files: seq<seq<Byte>>, beyond: nat -> nat) returns (inodes: seq<Inode>, ghost kept: seq<Rec>)
    requires w.Valid() && w.recs == []
    modifies w, w.dupl, w.fragDups
    ensures w.Valid() && RecsOk(w.o, w.disk, w.All(), kept) && Kept(w.o, files, |files|, kept, w.recs)
    ensures |inodes| == |files| && AllPoint(w.o, files, kept, inodes, beyond)
  {
    inodes, kept := [], [];
    while |inodes| < |files|
      invariant w.Valid() && RecsOk(w.o, w.disk, w.All(), kept) && Kept(w.o, files, |inodes|, kept, w.recs)
      invariant AllPoint(w.o, files, kept, inodes, beyond)
    {
      var inode;
      ghost var r;
      inode, r := PackOne(w, files, |inodes|, beyond, kept);
      hide *;
      inodes, kept := inodes + [inode], kept + [r];
      AllPointMore(w.o, files, kept[..|kept| - 1], inodes[..|inodes| - 1], beyond, r, inode);
      assert kept == kept[..|kept| - 1] + [r] && inodes == inodes[..|inodes| - 1] + [inode];
    }
  }

  lemma AllPointMore(o: FileOptions, files: seq<seq<Byte>>, kept: seq<Rec>, inodes: seq<Inode>, beyond: nat -> nat, r: Rec, inode: Inode)
    requires AllPoint(o, files, kept, inodes, beyond) && |inodes| < |files| && PointsAt(o, r, inode, files[|inodes|], beyond)
    ensures AllPoint(o, files, kept + [r], inodes + [inode], beyond)
  {
  }

  method PackOne(w: ImageWriter, files: seq<seq<Byte>>, n: nat, beyond: nat -> nat, ghost kept: seq<Rec>)
    returns (inode: Inode, ghost r: Rec)
    requires w.Valid() && RecsOk(w.o, w.disk, w.All(), kept) && Kept(w.o, files, n, kept, w.recs) && n < |files|
    modifies w, w.dupl, w.fragDups
    ensures w.Valid() && RecsOk(w.o, w.disk, w.All(), kept + [r]) && Kept(w.o, files, n + 1, kept + [r], w.recs)
    ensures PointsAt(w.o, r, inode, files[n], beyond)
  {
    ghost var recs, disk, all, o := w.recs, w.disk, w.All(), w.o;
    var duplicate;
    inode, duplicate, r := w.WriteFile(files[n], beyond);
    hide StoredBytes, Front, Newest, RecOk, CopyList, Pieces, Extract, AllRead, Kept;
    RecsStay(o, disk, w.disk, all, w.All(), kept);
    assert RecsOk(o, w.disk, w.All(), kept + [r]);
    KeptStep(o, files, n, kept, recs, r, duplicate, w.recs);
  }

  // ---------- Unpacking ----------

  /** What comes out is the file, and nothing behind a block list in memory was taken for part of it. */
  predicate Intact(o: FileOptions, files: seq<seq<Byte>>, k: nat, out: Option<seq<Byte>>)
    requires o.blockSize > 0 && k < |files|
  {
    out == Some(files[k])
    && |Pieces(Front(o, files[k]), o.blockSize)| <= |Pieces(Front(o, files[Original(o, files, k)]), o.blockSize)|
  }

  /** The fragment lies in a block that has been written, when the one in memory is empty. */
  lemma InWritten(blocks: seq<seq<Byte>>, f: Fragment)
    requires FragmentOk(blocks + [[]], f)
    ensures FragmentOk(blocks, f) && TailIn(blocks, f) == TailIn(blocks + [[]], f)
  {
  }

  lemma TailCounts(o: FileOptions, disk: seq<Byte>, all: seq<seq<Byte>>, r: Rec, inode: Inode, contents: seq<Byte>, beyond: nat -> nat)
    requires OptionsOk(o) && RecOk(o, disk, all, r) && PointsAt(o, r, inode, contents, beyond)
    ensures inode.fragment.(size := ReaderTail(o.blockSize, inode)) == r.info.fragment
    ensures FragmentOk(all, r.info.fragment) && |r.info.blockList| == |Pieces(r.front, o.blockSize)|
    ensures |inode.blockList| == |Pieces(Front(o, contents), o.blockSize)|
  {
    CountsAgree(o, contents, inode);
  }

  lemma SharedWhole(o: FileOptions, disk: seq<Byte>, all: seq<seq<Byte>>, r: Rec, inode: Inode, contents: seq<Byte>, beyond: nat -> nat)
    requires OptionsOk(o) && RecOk(o, disk, all, r) && PointsAt(o, r, inode, contents, beyond)
    requires r.info.blockList == BlockList(o, Front(o, contents))
    ensures AllRead(o.codec, disk, inode.start, inode.blockList)
  {
    BlocksBack(o, r.front, disk, r.info.start);
    assert inode.blockList == r.info.blockList;
  }

  lemma Unpacked(o: FileOptions, disk: seq<Byte>, blocks: seq<seq<Byte>>, files: seq<seq<Byte>>, k: nat, r: Rec, inode: Inode, beyond: nat -> nat)
    requires OptionsOk(o) && k < |files| && KeptAt(o, files, k, r)
    requires RecOk(o, disk, blocks + [[]], r) && PointsAt(o, r, inode, files[k], beyond)
    ensures |inode.blockList| == ReaderBlocks(o.blockSize, inode)
    ensures FragmentOk(blocks, inode.fragment.(size := ReaderTail(o.blockSize, inode)))
    ensures var out := if AllRead(o.codec, disk, inode.start, inode.blockList) then Some(Extract(o, disk, blocks, inode)) else None;
            Intact(o, files, k, out) <==> files[k] == files[Original(o, files, k)]
  {
    var all, first := blocks + [[]], files[Original(o, files, k)];
    SharedBack(o, files[k], disk, all, r, inode, beyond);
    TailCounts(o, disk, all, r, inode, files[k], beyond);
    InWritten(blocks, r.info.fragment);
    ListsTellApart(o, first, files[k]);
    assert Extract(o, disk, all, inode) == Extract(o, disk, blocks, inode);
    if first == files[k] { SharedWhole(o, disk, all, r, inode, files[k], beyond); }
  }

  method Unpack(ex: Extractor, files: seq<seq<Byte>>, inodes: seq<Inode>, ghost kept: seq<Rec>, ghost beyond: nat -> nat)
    returns (out: seq<Option<seq<Byte>>>)
    requires ex.Valid() && ex.o.blockSize > 0 && |inodes| == |files| == |kept| && AllPoint(ex.o, files, kept, inodes, beyond)
    requires RecsOk(ex.o, ex.disk, ex.blocks + [[]], kept) && forall k :: 0 <= k < |files| ==> KeptAt(ex.o, files, k, kept[k])
    modifies ex
    ensures |out| == |files|
    ensures forall k :: 0 <= k < |files| ==> (Intact(ex.o, files, k, out[k]) <==> files[k] == files[Original(ex.o, files, k)])
  {
    hide *;
    out := [];
    while |out| < |files|
      invariant ex.Valid() && |out| <= |files|
      invariant forall k :: 0 <= k < |out| ==> (Intact(ex.o, files, k, out[k]) <==> files[k] == files[Original(ex.o, files, k)])
    {
      KeptOf(ex.o, ex.disk, ex.blocks + [[]], files, kept, inodes, beyond, |out|);
      var file := UnpackOne(ex, files, |out|, inodes[|out|], kept[|out|], beyond);
      out := out + [file];
    }
  }

  lemma KeptOf(o: FileOptions, disk: seq<Byte>, all: seq<seq<Byte>>, files: seq<seq<Byte>>, kept: seq<Rec>, inodes: seq<Inode>,
               beyond: nat -> nat, k: nat)
    requires k < |files| == |kept| == |inodes| && AllPoint(o, files, kept, inodes, beyond) && RecsOk(o, disk, all, kept)
    ensures RecOk(o, disk, all, kept[k]) && PointsAt(o, kept[k], inodes[k], files[k], beyond)
  {
  }

  method UnpackOne(ex: Extractor, ghost files: seq<seq<Byte>>, ghost k: nat, inode: Inode, ghost r: Rec, ghost beyond: nat -> nat)
    returns (out: Option<seq<Byte>>)
    requires ex.Valid() && ex.o.blockSize > 0 && k < |files| && KeptAt(ex.o, files, k, r)
    requires RecOk(ex.o, ex.disk, ex.blocks + [[]], r) && PointsAt(ex.o, r, inode, files[k], beyond)
    modifies ex
    ensures ex.Valid() && (Intact(ex.o, files, k, out) <==> files[k] == files[Original(ex.o, files, k)])
  {
    Unpacked(ex.o, ex.disk, ex.blocks, files, k, r, inode, beyond);
    hide *;
    out := ex.WriteFile(inode);
  }

  /** Any number of files, packed and unpacked: a file comes out as it went in exactly when the first of
      those that duplicate checking takes for the same is the same. */
  method PackAndUnpack(o: FileOptions, disk: seq<Byte>, files: seq<seq<Byte>>, beyond: nat -> nat) returns (out: seq<Option<seq<Byte>>>)
    requires OptionsOk(o)
    ensures |out| == |files|
    ensures forall k :: 0 <= k < |files| ==> (Intact(o, files, k, out[k]) <==> files[k] == files[Original(o, files, k)])
  {
    var w := new ImageWriter(o, disk);
    ghost var kept;
    var inodes;
    inodes, kept := Pack(w, files, beyond);
    ghost var all, was := w.All(), w.disk;
    w.WriteFragment();
    RecsStay(o, was, w.disk, all, w.All(), kept);
    var ex := new Extractor(o, w.disk, w.fragmentTable, w.blocks);
    out := Unpack(ex, files, inodes, kept, beyond);
  }

  // ---------- A file that is lost ----------

  /** The second file is what the first is compressed to, and cannot be compressed further: the same bytes
      are stored for both, and the second comes out as the first. */
  lemma CompressedTwin(o: FileOptions, x: seq<Byte>)
    requires OptionsOk(o) && !o.rawData && o.noFragments && o.duplicateChecking
    requires var c := o.codec.compress(x); |c| < |x| <= o.blockSize && |o.codec.compress(c)| >= |c|
    ensures var c := o.codec.compress(x);
            && c != x && SameStored(o, x, c) && Original(o, [x, c], 1) == 0
            && |Pieces(Front(o, c), o.blockSize)| == |Pieces(Front(o, x), o.blockSize)|
  {
    var c := o.codec.compress(x);
    var p, q := Pieces(x, o.blockSize), Pieces(c, o.blockSize);
    assert |c| > 0 && o.codec.uncompress(c) == x;
    assert p == [x] && q == [c] && p[1..] == [] && q[1..] == [];
    assert Data(o.codec, false, p) == Mangle(o.codec, x, false, DATA_BIT).bytes + [] == c;
    assert Data(o.codec, false, q) == Mangle(o.codec, c, false, DATA_BIT).bytes + [] == c;
    assert SameStored(o, [x, c][0], c);
  }

  /** A codec with such a file. */
  function Twins(): (z: Codec)
    ensures Faithful(z) && z.compress([0, 0, 0]) == [1] && |z.compress([1])| == 2
  {
    var z := Codec(s => if s == [0, 0, 0] then [1] else [0] + s, s => if s == [1] then [0, 0, 0] else if s == [] then [] else s[1..]);
    assert forall s: seq<Byte> :: z.uncompress(z.compress(s)) == s && |z.compress(s)| > 0 by {
      forall s: seq<Byte> ensures z.uncompress(z.compress(s)) == s && |z.compress(s)| > 0 {
        if s != [0, 0, 0] { assert ([0] + s)[1..] == s && ([0] + s)[0] == 0; }
      }
    }
    z
  }

  method LoseFile(disk: seq<Byte>, beyond: nat -> nat) returns (files: seq<seq<Byte>>, out: seq<Option<seq<Byte>>>)
    ensures files == [[0, 0, 0], [1]] && |out| == 2 && out[1] != Some(files[1])
  {
    var z := Twins();
    var o := FileOptions(z, 4096, false, false, true, false, true);
    assert Faithful(z) && o.codec == z;
    files := [[0, 0, 0], [1]];
    CompressedTwin(o, [0, 0, 0]);
    assert files == [[0, 0, 0], o.codec.compress([0, 0, 0])];
    out := PackAndUnpack(o, disk, files, beyond);
    assert !Intact(o, files, 1, out[1]);
  }
}
