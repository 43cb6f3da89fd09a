/** The directory table: write_dir puts a finished directory into the metadata stream and completes its
    index points; squashfs_openddir reads a directory back. */
module DirectoryTable {
  import opened Options
  import opened Compression
  import opened DirectoryFormat
  import opened DirectoryWriter
  import M = MetadataStream

  // ---------- Writing ----------

  ghost predicate Increasing(index: seq<IndexPoint>) {
    forall i, j :: 0 <= i < j < |index| ==> index[i].at < index[j].at
  }

  lemma SpacedIncreases(index: seq<IndexPoint>)
    requires Spaced(index)
    ensures Increasing(index)
  {
    forall i, j | 0 <= i < j < |index| ensures index[i].at < index[j].at { SpacedFrom(index, i, j); }
  }

  /** The point carries the block that holds its byte of the stream; the directory starts at `from`. */
  ghost predicate PointLocated(o: M.Options, stream: seq<Byte>, from: nat, point: IndexPoint) {
    && Faithful(o.codec) && from + point.at <= |stream|
    && point.startBlock == M.RefTo(o, stream, from + point.at).block
  }

  ghost predicate Located(o: M.Options, stream: seq<Byte>, from: nat, index: seq<IndexPoint>, i: nat) {
    i <= |index| && forall k :: 0 <= k < i ==> PointLocated(o, stream, from, index[k])
  }

  lemma LocatedByBlock(o: M.Options, stream: seq<Byte>, from: nat, point: IndexPoint, n: nat)
    requires Faithful(o.codec) && 8192 * n <= from + point.at <= |stream| && from + point.at < 8192 * n + 8192
    ensures PointLocated(o, stream, from, point.(startBlock := |M.Table(o, stream, n)|))
  {
    M.RefBlock(o, stream, from + point.at, n);
  }

  lemma LocatedStep(o: M.Options, stream: seq<Byte>, from: nat, index: seq<IndexPoint>, i: nat, point: IndexPoint)
    requires Located(o, stream, from, index, i) && i < |index| && PointLocated(o, stream, from, point)
    ensures Located(o, stream, from, index[i := point], i + 1)
  {
  }

  ghost predicate SamePoints(a: seq<IndexPoint>, b: seq<IndexPoint>) {
    |a| == |b| && forall k :: 0 <= k < |a| ==> a[k].at == b[k].at && a[k].name == b[k].name
  }

  lemma SameIncreasing(a: seq<IndexPoint>, b: seq<IndexPoint>)
    requires SamePoints(a, b) && Increasing(b)
    ensures Increasing(a)
  {
  }

  /** The inner loop of write_dir: the points inside the block being filled get its position. */
  method AssignBlocks(index: seq<IndexPoint>, i: nat, bound: int, block: nat,
                      ghost o: M.Options, ghost stream: seq<Byte>, ghost from: nat, ghost n: nat)
    returns (index': seq<IndexPoint>, i': nat)
    requires Faithful(o.codec) && Increasing(index) && Located(o, stream, from, index, i)
    requires 8192 * n <= |stream| && block == |M.Table(o, stream, n)| && bound + from == 8192 * n + 8192
    requires forall k :: i <= k < |index| ==> 8192 * n <= from + index[k].at <= |stream|
    ensures SamePoints(index', index) && Located(o, stream, from, index', i')
    ensures forall k :: i' <= k < |index| ==> bound <= index[k].at
  {
    hide PointLocated;
    index', i' := index, i;
    while i' < |index'| && index'[i'].at < bound
      invariant i <= i' <= |index| && SamePoints(index', index) && Located(o, stream, from, index', i')
    {
      LocatedByBlock(o, stream, from, index'[i'], n);
      LocatedStep(o, stream, from, index', i', index'[i'].(startBlock := block));
      index' := index'[i' := index'[i'].(startBlock := block)];
      i' := i' + 1;
    }
  }

  /** The rest of write_dir after the bytes are in the cache: full blocks leave it, and every point is located. */
  method LocatePoints(w: M.Writer, index: seq<IndexPoint>, offset: nat, ghost from: nat) returns (index': seq<IndexPoint>)
    requires w.Valid() && Increasing(index) && offset < 8192 && from == 8192 * w.flushed + offset <= |w.stream|
    requires forall k :: 0 <= k < |index| ==> from + index[k].at < |w.stream|
    modifies w
    ensures w.Valid() && w.stream == old(w.stream) && |w.cache| < 8192
    ensures SamePoints(index', index) && Located(w.o, w.stream, from, index', |index|)
  {
    var i: nat, bound := 0, 8192 - offset;
    index' := index;
    while true
      invariant w.Valid() && w.stream == old(w.stream) && bound + from == 8192 * w.flushed + 8192
      invariant SamePoints(index', index) && Located(w.o, w.stream, from, index', i)
      invariant forall k :: i <= k < |index| ==> 8192 * w.flushed <= from + index[k].at
      decreases |w.cache|
    {
      SameIncreasing(index', index);
      assert forall k :: 0 <= k < |index| ==> index'[k].at == index[k].at;
      index', i := AssignBlocks(index', i, bound, |w.table|, w.o, w.stream, from, w.flushed);
      bound := bound + 8192;
      if |w.cache| < 8192 { break; }
      w.FlushBlock();
    }
  }

  /** write_dir: the reference it returns leads to the directory, and so do those of the index points. */
  method WriteDir(dir: Directory, w: M.Writer) returns (ref: M.Ref, dirSize: nat)
    requires dir.Valid() && w.Valid() && |w.cache| < 8192
    modifies dir`buff, dir`index, w
    ensures w.Valid() && |w.cache| < 8192 && RunsOk(dir.runs)
    ensures dirSize == |RunsBytes(dir.runs)| && w.stream == old(w.stream) + RunsBytes(dir.runs)
    ensures ref == M.RefTo(w.o, w.stream, |old(w.stream)|) && ref.offset < 8192
    ensures SamePoints(dir.index, old(dir.index)) && Located(w.o, w.stream, |old(w.stream)|, dir.index, |dir.index|)
  {
    dir.CloseRun();
    SpacedIncreases(dir.index);
    dirSize := |dir.buff|;
    ref := w.Here();
    M.RefStable(w.o, w.stream, dir.buff, |w.stream|);
    w.Append(dir.buff);
    PointsInside(dir.index, dir.runs, dir.marks);
    dir.index := LocatePoints(w, dir.index, ref.offset, |old(w.stream)|);
  }

  lemma PointsInside(index: seq<IndexPoint>, runs: seq<Run>, marks: seq<nat>)
    requires RunsOk(runs) && |marks| == |index| && forall k :: 0 <= k < |index| ==> OnHeader(runs, index[k], marks[k])
    ensures forall k :: 0 <= k < |index| ==> index[k].at < |RunsBytes(runs)|
  {
    forall k | 0 <= k < |index| ensures index[k].at < |RunsBytes(runs)| {
      assert OnHeader(runs, index[k], marks[k]);
      RunsBytesGrow(runs, marks[k], |runs|);
      assert runs[..|runs|] == runs;
    }
  }

  // ---------- Reading ----------

  ghost predicate LiesAt(table: seq<Byte>, at: nat, bytes: seq<Byte>) {
    at + |bytes| <= |table| && table[at..at + |bytes|] == bytes
  }

  lemma LiesInside(table: seq<Byte>, at: nat, bytes: seq<Byte>, a: nat, part: seq<Byte>)
    requires LiesAt(table, at, bytes) && LiesAt(bytes, a, part)
    ensures LiesAt(table, at + a, part)
  {
    M.PieceAt(table, at, bytes, a, a + |part|);
  }

  lemma LiesLonger(s: seq<Byte>, t: seq<Byte>, a: nat, part: seq<Byte>)
    requires LiesAt(s, a, part)
    ensures LiesAt(s + t, a, part)
  {
    assert (s + t)[a..a + |part|] == s[a..a + |part|];
  }

  lemma LiesLast(s: seq<Byte>, t: seq<Byte>)
    ensures LiesAt(s + t, |s|, t)
  {
  }

  /** The bytes of the first j entries of a run. */
  function Before(r: Run, j: nat): nat
    requires j <= |r.entries|
  {
    if j == 0 then 0 else Before(r, j - 1) + 5 + |r.entries[j - 1].name|
  }

  lemma {:induction false} BeforeFront(r: Run, front: Run, j: nat)
    requires j <= |front.entries| && front.entries <= r.entries
    ensures Before(front, j) == Before(r, j)
  {
    if j > 0 { BeforeFront(r, front, j - 1); }
  }

  /** Entry j of a run follows the first j entries. */
  lemma {:induction false} EntryInRun(r: Run, j: nat)
    requires RunOk(r) && j < |r.entries|
    ensures LiesAt(EntriesBytes(r), Before(r, j), EntryBytes(r.entries[j], r.base))
    ensures Before(r, |r.entries|) == |EntriesBytes(r)|
    decreases |r.entries|
  {
    hide EntryBytes, EntryOk, LiesAt;
    var n := |r.entries| - 1;
    var front := r.(entries := r.entries[..n]);
    var last := EntryBytes(r.entries[n], r.base);
    BeforeFront(r, front, n);
    if n > 0 {
      assert RunOk(front);
      EntryInRun(front, if j < n then j else 0);
    }
    if j < n {
      BeforeFront(r, front, j);
      LiesLonger(EntriesBytes(front), last, Before(r, j), EntryBytes(r.entries[j], r.base));
    } else {
      LiesLast(EntriesBytes(front), last);
    }
  }

  lemma RunInRuns(runs: seq<Run>, k: nat)
    requires RunsOk(runs) && k < |runs|
    ensures LiesAt(RunsBytes(runs), |RunsBytes(runs[..k])|, RunBytes(runs[k]))
    ensures |RunsBytes(runs[..k])| + |RunBytes(runs[k])| == |RunsBytes(runs[..k + 1])| <= |RunsBytes(runs)|
  {
    RunsBytesSplit(runs, k + 1);
    assert runs[..k + 1] == runs[..k] + [runs[k]];
    RunsBytesLast(runs[..k + 1], runs[..k], runs[k]);
    hide LiesAt, RunsBytes, RunBytes;
    LiesLast(RunsBytes(runs[..k]), RunBytes(runs[k]));
    LiesLonger(RunsBytes(runs[..k + 1]), RunsBytes(runs[k + 1..]), |RunsBytes(runs[..k])|, RunBytes(runs[k]));
  }

  method ReadEntry(table: seq<Byte>, at: nat, block: nat, ghost e: Entry, ghost base: nat) returns (d: DirEnt, next: nat)
    requires EntryOk(e) && |e.name| <= NAME_LEN && -32768 <= e.number - base <= 32767 && block == e.block
    requires LiesAt(table, at, EntryBytes(e, base))
    ensures d == Kept(e) && next == at + |EntryBytes(e, base)|
  {
    EntryReadsBack(e, base);
    var bytes := at;
    assert table[at..at + |EntryBytes(e, base)|] == EntryBytes(e, base);
    var word := Word16(table[bytes], table[bytes + 1]);
    var size := table[bytes + 2];
    bytes := bytes + 5;
    var name := CString(table[bytes..bytes + size + 1]);
    assert table[bytes..bytes + size + 1] == EntryBytes(e, base)[5..];
    CStringOfName(e.name);
    d := DirEnt(name, block, word % 8192, word / 8192);
    next := bytes + size + 1;
  }

  method ReadHeader(table: seq<Byte>, at: nat, ghost r: Run) returns (count: nat, block: nat)
    requires RunOk(r) && LiesAt(table, at, RunBytes(r))
    ensures count == |r.entries| && block == r.block && |RunBytes(r)| == 9 + |EntriesBytes(r)|
    ensures LiesAt(table, at + 9, EntriesBytes(r))
  {
    HeaderReadsBack(r);
    var bytes := RunBytes(r);
    LiesLast(HeaderBytes(|r.entries|, r.block, r.base), EntriesBytes(r));
    LiesInside(table, at, bytes, 9, EntriesBytes(r));
    assert bytes[0..9] == HeaderBytes(|r.entries|, r.block, r.base);
    LiesInside(table, at, bytes, 0, HeaderBytes(|r.entries|, r.block, r.base));
    var header := table[at..at + 9];
    count := (header[0] as int) + 1;
    block := Word32(header[1], header[2], header[3], header[4]);
  }

  /** One turn of the outer loop of squashfs_openddir. */
  method ReadRun(table: seq<Byte>, at: nat, ghost r: Run) returns (dirs: seq<DirEnt>, next: nat)
    requires RunOk(r) && LiesAt(table, at, RunBytes(r))
    ensures dirs == KeptAll(r.entries) && next == at + |RunBytes(r)|
  {
    var count, block := ReadHeader(table, at, r);
    dirs, next := ReadEntries(table, at + 9, count, block, r);
  }

  /** The inner loop of squashfs_openddir. */
  method ReadEntries(table: seq<Byte>, at: nat, count: nat, block: nat, ghost r: Run) returns (dirs: seq<DirEnt>, next: nat)
    requires RunOk(r) && LiesAt(table, at, EntriesBytes(r)) && count == |r.entries| && block == r.block
    ensures dirs == KeptAll(r.entries) && next == at + |EntriesBytes(r)|
  {
    hide LiesAt, EntriesBytes, EntryBytes, EntryOk;
    next := at;
    dirs := [];
    var left := count;
    ghost var j: nat := 0;
    while left > 0
      invariant j <= |r.entries| == j + left && dirs == KeptAll(r.entries[..j])
      invariant next == at + Before(r, j)
      decreases left
    {
      EntryInRun(r, j);
      LiesInside(table, at, EntriesBytes(r), Before(r, j), EntryBytes(r.entries[j], r.base));
      var d;
      d, next := ReadEntry(table, next, block, r.entries[j], r.base);
      dirs := dirs + [d];
      assert r.entries[..j + 1] == r.entries[..j] + [r.entries[j]];
      left := left - 1;
      j := j + 1;
    }
    EntryInRun(r, 0);
    assert r.entries[..j] == r.entries;
  }

  lemma RunLies(table: seq<Byte>, start: nat, runs: seq<Run>, k: nat)
    requires RunsOk(runs) && LiesAt(table, start, RunsBytes(runs)) && k < |runs|
    ensures LiesAt(table, start + |RunsBytes(runs[..k])|, RunBytes(runs[k]))
    ensures |RunsBytes(runs[..k])| + |RunBytes(runs[k])| == |RunsBytes(runs[..k + 1])| <= |RunsBytes(runs)|
  {
    hide LiesAt, RunsBytes, RunBytes, RunOk;
    RunInRuns(runs, k);
    LiesInside(table, start, RunsBytes(runs), |RunsBytes(runs[..k])|, RunBytes(runs[k]));
  }

  lemma ListingNext(runs: seq<Run>, k: nat)
    requires k < |runs|
    ensures KeptAll(Listing(runs[..k + 1])) == KeptAll(Listing(runs[..k])) + KeptAll(runs[k].entries)
  {
    assert runs[..k + 1][..k] == runs[..k];
  }

  method ReadNext(table: seq<Byte>, at: nat, dirs: seq<DirEnt>, ghost start: nat, ghost runs: seq<Run>, ghost k: nat)
    returns (more: seq<DirEnt>, next: nat)
    requires RunsOk(runs) && LiesAt(table, start, RunsBytes(runs)) && k < |runs|
    requires at == start + |RunsBytes(runs[..k])| && dirs == KeptAll(Listing(runs[..k]))
    ensures more == KeptAll(Listing(runs[..k + 1])) && next == start + |RunsBytes(runs[..k + 1])|
    ensures next <= start + |RunsBytes(runs)|
  {
    RunLies(table, start, runs, k);
    ListingNext(runs, k);
    var d;
    d, next := ReadRun(table, at, runs[k]);
    more := dirs + d;
  }

  /** squashfs_openddir from the position of the directory on; `fileSize` is what the inode holds, 3 more than the bytes. */
  method ReadRuns(table: seq<Byte>, start: nat, fileSize: nat, ghost runs: seq<Run>) returns (dirs: seq<DirEnt>)
    requires RunsOk(runs) && LiesAt(table, start, RunsBytes(runs)) && fileSize == |RunsBytes(runs)| + 3
    ensures dirs == KeptAll(Listing(runs))
  {
    var bytes, size := start, start + fileSize - 3;
    dirs := [];
    ghost var k: nat := 0;
    while bytes < size
      invariant k <= |runs| && bytes == start + |RunsBytes(runs[..k])| && dirs == KeptAll(Listing(runs[..k]))
      invariant bytes <= size
      decreases |runs| - k
    {
      assert runs[..|runs|] == runs;
      dirs, bytes := ReadNext(table, bytes, dirs, start, runs, k);
      k := k + 1;
    }
    if k < |runs| { RunsBytesGrow(runs, k, |runs|); }
    assert runs[..|runs|] == runs;
  }

  /** A directory is opened by the reference in its inode. Where it is empty and begins exactly where the
      table ends on a block boundary there is no block to look up, and the reader gives up. */
  method OpenDirectory(hash: M.HashTable, table: seq<Byte>, tableStart: nat, ref: M.Ref, fileSize: nat,
                       ghost o: M.Options, ghost n: nat, ghost p: nat, ghost runs: seq<Run>)
    returns (dirs: Option<seq<DirEnt>>)
    requires hash.Valid() && Faithful(o.codec) && M.Covers(table, n) && M.Indexed(o, tableStart, table, hash.contents, n)
    requires RunsOk(runs) && LiesAt(table, p, RunsBytes(runs))
    requires ref == M.RefTo(o, table, p) && fileSize == |RunsBytes(runs)| + 3
    ensures dirs == if p == |table| && p % 8192 == 0 then None else Some(KeptAll(Listing(runs)))
  {
    var bytes := M.Locate(hash, tableStart, ref, o, table, n, p);
    if bytes == -1 { return None; }
    var d := ReadRuns(table, bytes, fileSize, runs);
    dirs := Some(d);
  }

  /** The references in index points stay right while more directories follow. */
  lemma LocatedStable(o: M.Options, stream: seq<Byte>, more: seq<Byte>, from: nat, index: seq<IndexPoint>)
    requires Located(o, stream, from, index, |index|)
    ensures Located(o, stream + more, from, index, |index|)
  {
    forall k | 0 <= k < |index| ensures PointLocated(o, stream + more, from, index[k]) {
      assert PointLocated(o, stream, from, index[k]);
      M.RefStable(o, stream, more, from + index[k].at);
    }
  }
}
