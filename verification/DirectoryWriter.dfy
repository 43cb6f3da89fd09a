/** How mksquashfs builds one directory: entries are appended to runs, and where the bytes since the
    last index point would pass 8192 a new run is begun with an index point on its header. */
module DirectoryWriter {
  import opened Compression
  import opened DirectoryFormat
  import M = MetadataStream

  // ---------- Entries and runs ----------

  function Truncated(e: Entry): (r: Entry)
    requires EntryOk(e)
    ensures EntryOk(r) && |r.name| <= NAME_LEN
  {
    if |e.name| > NAME_LEN then e.(name := e.name[..NAME_LEN]) else e
  }

  function Joined(r: Run, e: Entry): Run { r.(entries := r.entries + [e]) }

  function Front(runs: seq<Run>): seq<Run>
    requires runs != []
  {
    runs[..|runs| - 1]
  }

  function Last(runs: seq<Run>): Run
    requires runs != []
  {
    runs[|runs| - 1]
  }

  lemma RunGrows(r: Run, e: Entry)
    requires r.entries == [] || RunOk(r)
    requires RunOk(Joined(r, e))
    ensures EntryOk(e) && |e.name| <= NAME_LEN && -32768 <= e.number - r.base <= 32767
    ensures EntriesBytes(Joined(r, e)) == EntriesBytes(r) + EntryBytes(e, r.base)
  {
    var j := Joined(r, e);
    assert j.entries[|r.entries|] == e;
    assert j.entries[..|r.entries|] == r.entries;
    assert r.(entries := r.entries) == r;
  }

  lemma RunsGrow(runs: seq<Run>, r: Run)
    requires RunsOk(runs) && RunOk(r)
    ensures RunsOk(runs + [r]) && RunsBytes(runs + [r]) == RunsBytes(runs) + RunBytes(r)
    ensures Listing(runs + [r]) == Listing(runs) + r.entries
  {
    assert (runs + [r])[..|runs|] == runs;
  }

  /** The buffer holds the runs, save that the header of the last one, at `ecp`, is not filled in yet. */
  ghost predicate Body(buff: seq<Byte>, ecp: nat, block: nat, base: nat, count: nat, runs: seq<Run>) {
    && runs != [] && RunsOk(runs)
    && Last(runs).block == block && Last(runs).base == base && |Last(runs).entries| == count
    && ecp == |RunsBytes(Front(runs))| && ecp + 9 <= |buff|
    && buff[..ecp] == RunsBytes(Front(runs)) && buff[ecp + 9..] == EntriesBytes(Last(runs))
  }

  lemma BodyPatched(buff: seq<Byte>, ecp: nat, block: nat, base: nat, count: nat, runs: seq<Run>)
    requires Body(buff, ecp, block, base, count, runs)
    ensures 1 <= count <= 256 && block < 0x1_0000_0000 && base < 0x1_0000_0000
    ensures buff[..ecp] + HeaderBytes(count, block, base) + buff[ecp + 9..] == RunsBytes(runs)
    ensures |RunsBytes(runs)| == |buff|
  {
    Associate(buff[..ecp], HeaderBytes(count, block, base), buff[ecp + 9..]);
    assert RunOk(Last(runs));
  }

  /** An entry is appended to the last run. */
  lemma BodyJoin(buff: seq<Byte>, ecp: nat, block: nat, base: nat, count: nat, runs: seq<Run>, e: Entry)
    requires Body(buff, ecp, block, base, count, runs) && RunOk(Joined(Last(runs), e))
    ensures EntryOk(e) && |e.name| <= NAME_LEN && -32768 <= e.number - base <= 32767
    ensures Body(buff + EntryBytes(e, base), ecp, block, base, count + 1, Front(runs) + [Joined(Last(runs), e)])
  {
    RunGrows(Last(runs), e);
    var more := Front(runs) + [Joined(Last(runs), e)];
    assert Front(more) == Front(runs);
    assert (buff + EntryBytes(e, base))[ecp + 9..] == buff[ecp + 9..] + EntryBytes(e, base);
  }

  /** A run is begun with one entry; `hole` is what memory holds where its header goes. */
  lemma BodyStart(runs: seq<Run>, hole: seq<Byte>, e: Entry)
    requires RunsOk(runs) && |hole| == 9 && EntryOk(e) && |e.name| <= NAME_LEN
    ensures Body(RunsBytes(runs) + hole + EntryBytes(e, e.number), |RunsBytes(runs)|, e.block, e.number, 1,
                 runs + [Run(e.block, e.number, [e])])
  {
    var r := Run(e.block, e.number, []);
    var more := runs + [Joined(r, e)];
    assert RunOk(Joined(r, e));
    RunGrows(r, e);
    assert Front(more) == runs && Joined(r, e) == Run(e.block, e.number, [e]);
    var b := RunsBytes(runs) + hole + EntryBytes(e, e.number);
    assert b[..|RunsBytes(runs)|] == RunsBytes(runs);
    assert b[|RunsBytes(runs)| + 9..] == EntryBytes(e, e.number);
  }

  // ---------- Index points ----------

  /** `at` is the position inside the directory; `startBlock` is filled in when the directory is written. */
  datatype IndexPoint = IndexPoint(at: nat, startBlock: nat, name: seq<Byte>)

  /** sizeof(squashfs_dir_index) and the name, for every point. */
  function IndexSizes(index: seq<IndexPoint>): nat {
    if index == [] then 0 else IndexSizes(index[..|index| - 1]) + 9 + |index[|index| - 1].name|
  }

  /** The point lies on the header of run `mark` and carries the name of the first entry of that run. */
  ghost predicate OnHeader(runs: seq<Run>, point: IndexPoint, mark: nat) {
    && RunsOk(runs) && mark < |runs|
    && point.at == |RunsBytes(runs[..mark])| && point.name == runs[mark].entries[0].name
  }

  function PointBefore(index: seq<IndexPoint>, k: nat): nat
    requires k <= |index|
  {
    if k == 0 then 0 else index[k - 1].at
  }

  function Gap(index: seq<IndexPoint>, k: nat): int
    requires k < |index|
  {
    index[k].at - PointBefore(index, k)
  }

  /** From the start of the directory to the first point, and from each to the next, 7932 to 8201 bytes. */
  ghost predicate Spaced(index: seq<IndexPoint>) {
    forall k :: 0 <= k < |index| ==> 7932 <= Gap(index, k) <= 8192 + 9
  }

  ghost predicate Points(length: nat, index: seq<IndexPoint>, icp: nat, iSize: nat, runs: seq<Run>, marks: seq<nat>) {
    && Spaced(index) && icp == PointBefore(index, |index|) && iSize == IndexSizes(index)
    && icp <= length <= icp + 8192 + 9 && (index != [] ==> icp < length)
    && |marks| == |index| && forall k :: 0 <= k < |index| ==> OnHeader(runs, index[k], marks[k])
  }

  lemma OnHeaderStable(runs: seq<Run>, more: seq<Run>, point: IndexPoint, mark: nat)
    requires OnHeader(runs, point, mark) && RunsOk(more) && |runs| <= |more|
    requires forall k :: 0 <= k < |runs| - 1 ==> more[k] == runs[k]
    requires Last(runs).entries <= more[|runs| - 1].entries
    ensures OnHeader(more, point, mark)
  {
    assert more[..mark] == runs[..mark];
    assert RunOk(runs[mark]);
  }

  /** Every point stays on its header when the last run grows or another run follows. */
  lemma PointsGrow(index: seq<IndexPoint>, marks: seq<nat>, runs: seq<Run>, more: seq<Run>)
    requires |marks| == |index| && forall k :: 0 <= k < |index| ==> OnHeader(runs, index[k], marks[k])
    requires runs == [] || (RunsOk(more) && |runs| <= |more| && Last(runs).entries <= more[|runs| - 1].entries)
    requires forall k :: 0 <= k < |runs| - 1 ==> k < |more| && more[k] == runs[k]
    ensures forall k :: 0 <= k < |index| ==> OnHeader(more, index[k], marks[k])
  {
    forall k | 0 <= k < |index| ensures OnHeader(more, index[k], marks[k]) {
      assert OnHeader(runs, index[k], marks[k]);
      OnHeaderStable(runs, more, index[k], marks[k]);
    }
  }

  lemma SpacedGrows(index: seq<IndexPoint>, point: IndexPoint)
    requires Spaced(index) && 7932 <= point.at - PointBefore(index, |index|) <= 8192 + 9
    ensures Spaced(index + [point]) && IndexSizes(index + [point]) == IndexSizes(index) + 9 + |point.name|
  {
    var more := index + [point];
    forall k | 0 <= k < |more| ensures 7932 <= Gap(more, k) <= 8192 + 9 {
      if k < |index| { assert Gap(more, k) == Gap(index, k); }
    }
    assert more[..|index|] == index;
  }

  lemma PointsJoin(length: nat, index: seq<IndexPoint>, icp: nat, iSize: nat, runs: seq<Run>, marks: seq<nat>, more: seq<Run>, longer: nat)
    requires Points(length, index, icp, iSize, runs, marks) && length <= longer <= icp + 8192 + 9
    requires runs != [] && RunsOk(more) && |runs| == |more| && Front(more) == Front(runs)
    requires Last(runs).entries <= Last(more).entries
    ensures Points(longer, index, icp, iSize, more, marks)
  {
    forall k | 0 <= k < |runs| - 1 ensures more[k] == runs[k] {
      assert Front(more)[k] == Front(runs)[k];
    }
    PointsGrow(index, marks, runs, more);
  }

  lemma NoPoints(index: seq<IndexPoint>, marks: seq<nat>)
    requires |marks| == |index| && forall k :: 0 <= k < |index| ==> OnHeader([], index[k], marks[k])
    ensures index == []
  {
    var k := 0;
    assert k < |index| ==> OnHeader([], index[k], marks[k]);
  }

  /** A run whose first entry is not too far follows at `length` ... */
  lemma PointsNear(length: nat, index: seq<IndexPoint>, icp: nat, iSize: nat, runs: seq<Run>, marks: seq<nat>, r: Run)
    requires Points(length, index, icp, iSize, runs, marks) && RunsOk(runs) && RunOk(r) && length == |RunsBytes(runs)|
    requires runs == [] || length + 5 + |r.entries[0].name| - icp <= 8192
    ensures Points(length + 14 + |r.entries[0].name|, index, icp, iSize, runs + [r], marks)
  {
    assert RunsOk(runs + [r]);
    PointsGrow(index, marks, runs, runs + [r]);
    if runs == [] { NoPoints(index, marks); }
  }

  /** ... and one whose first entry is too far gets an index point on its header. */
  lemma PointsFar(length: nat, index: seq<IndexPoint>, icp: nat, iSize: nat, runs: seq<Run>, marks: seq<nat>, r: Run)
    requires Points(length, index, icp, iSize, runs, marks) && RunsOk(runs) && RunOk(r) && length == |RunsBytes(runs)|
    requires runs != [] && length + 5 + |r.entries[0].name| - icp > 8192
    ensures var name := r.entries[0].name;
            Points(length + 14 + |name|, index + [IndexPoint(length, 0, name)], length, iSize + 9 + |name|,
                   runs + [r], marks + [|runs|])
  {
    var more := runs + [r];
    assert RunsOk(more);
    PointsGrow(index, marks, runs, more);
    SpacedGrows(index, IndexPoint(length, 0, r.entries[0].name));
    assert more[..|runs|] == runs;
  }

  lemma {:induction false} SpacedFrom(index: seq<IndexPoint>, i: nat, j: nat)
    requires Spaced(index) && i <= j < |index|
    ensures index[i].at + 7932 * (j - i) <= index[j].at && 7932 * (i + 1) <= index[i].at
    decreases i + j
  {
    assert 7932 <= Gap(index, j);
    if i < j {
      SpacedFrom(index, i, j - 1);
    } else if i > 0 {
      SpacedFrom(index, i - 1, i - 1);
    }
  }

  /** i_count fits its 16 bits in every directory whose size passes the test of create_inode. */
  lemma IndexCountFits(index: seq<IndexPoint>, dirSize: nat)
    requires Spaced(index) && PointBefore(index, |index|) <= dirSize && dirSize + 3 < 0x800_0000
    ensures |index| < 0x1_0000
  {
    if index != [] { SpacedFrom(index, |index| - 1, |index| - 1); }
  }

  /** From an index point the directory decodes as the entries from that name on. */
  lemma IndexPointDecodes(runs: seq<Run>, point: IndexPoint, mark: nat)
    requires OnHeader(runs, point, mark)
    ensures point.at <= |RunsBytes(runs)| && RunsBytes(runs)[point.at..] == RunsBytes(runs[mark..])
    ensures Listing(runs) == Listing(runs[..mark]) + Listing(runs[mark..])
    ensures Listing(runs[mark..]) != [] && Listing(runs[mark..])[0].name == point.name
  {
    RunsBytesSplit(runs, mark);
    ListingSplit(runs, mark);
    ListingSplit(runs[mark..], 1);
    var first := runs[mark..][..1];
    assert first == [] + [runs[mark]];
    ListingOne(runs[mark]);
    assert RunOk(runs[mark]);
  }

  lemma ListingOne(r: Run)
    ensures Listing([r]) == r.entries
  {
    assert [r][..0] == [];
  }

  lemma JoinedOk(r: Run, e: Entry)
    requires RunOk(r) && EntryOk(e) && |e.name| <= NAME_LEN
    ensures RunOk(Joined(r, e))
       <==> |r.entries| < 256 && e.block == r.block && -32768 <= e.number - r.base <= 32767
  {
    var j := Joined(r, e);
    assert j.entries[|r.entries|] == e;
    assert forall i :: 0 <= i < |r.entries| ==> j.entries[i] == r.entries[i];
  }

  lemma ListingJoin(runs: seq<Run>, e: Entry)
    requires runs != []
    ensures Listing(Front(runs) + [Joined(Last(runs), e)]) == Listing(runs) + [e]
  {
    var more := Front(runs) + [Joined(Last(runs), e)];
    assert more[..|more| - 1] == Front(runs);
  }

  // ---------- The directory under construction ----------

  /** What the fields of a directory say about its runs; `ecp` is negative while there is no run. */
  ghost predicate Holds(buff: seq<Byte>, ecp: int, block: nat, base: nat, count: nat,
                        index: seq<IndexPoint>, icp: nat, iSize: nat, runs: seq<Run>, marks: seq<nat>)
  {
    && RunsOk(runs) && |buff| == |RunsBytes(runs)|
    && Points(|buff|, index, icp, iSize, runs, marks)
    && if ecp < 0 then runs == [] && count == 256 else Body(buff, ecp, block, base, count, runs)
  }

  lemma HoldsJoin(buff: seq<Byte>, ecp: nat, block: nat, base: nat, count: nat,
                  index: seq<IndexPoint>, icp: nat, iSize: nat, runs: seq<Run>, marks: seq<nat>, e: Entry)
    requires Holds(buff, ecp, block, base, count, index, icp, iSize, runs, marks)
    requires RunOk(Joined(Last(runs), e)) && |buff| + 5 + |e.name| - icp <= 8192
    ensures EntryOk(e) && |e.name| <= NAME_LEN && -32768 <= e.number - base <= 32767
    ensures Holds(buff + EntryBytes(e, base), ecp, block, base, count + 1, index, icp, iSize,
                  Front(runs) + [Joined(Last(runs), e)], marks)
  {
    var more := Front(runs) + [Joined(Last(runs), e)];
    BodyJoin(buff, ecp, block, base, count, runs, e);
    PointsJoin(|buff|, index, icp, iSize, runs, marks, more, |buff| + 5 + |e.name|);
    BodyPatched(buff + EntryBytes(e, base), ecp, block, base, count + 1, more);
  }

  lemma HoldsBreak(index: seq<IndexPoint>, icp: nat, iSize: nat, runs: seq<Run>, marks: seq<nat>, e: Entry, hole: seq<Byte>)
    requires RunsOk(runs) && EntryOk(e) && |e.name| <= NAME_LEN && |hole| == 9
    requires Points(|RunsBytes(runs)| + 14 + |e.name|, index, icp, iSize, runs + [Run(e.block, e.number, [e])], marks)
    ensures Holds(RunsBytes(runs) + hole + EntryBytes(e, e.number), |RunsBytes(runs)|, e.block, e.number, 1,
                  index, icp, iSize, runs + [Run(e.block, e.number, [e])], marks)
  {
    BodyStart(runs, hole, e);
    BodyPatched(RunsBytes(runs) + hole + EntryBytes(e, e.number), |RunsBytes(runs)|, e.block, e.number, 1,
                runs + [Run(e.block, e.number, [e])]);
  }

  lemma FreshLength(e: Entry)
    requires EntryOk(e) && |e.name| <= NAME_LEN
    ensures |EntryBytes(e, e.number)| == 5 + |e.name|
  {
  }

  lemma FreshRun(runs: seq<Run>, e: Entry)
    requires RunsOk(runs) && EntryOk(e) && |e.name| <= NAME_LEN
    ensures Listing(runs + [Run(e.block, e.number, [e])]) == Listing(runs) + [e]
  {
    var r := Run(e.block, e.number, [e]);
    assert r.entries[0] == e;
    RunsGrow(runs, r);
  }

  class Directory {
    var buff: seq<Byte>         // the buffer up to p
    var size: nat
    var entryCount: nat
    var entryCountP: int        // the header of the open run, -1 for NULL
    var startBlock: nat
    var inodeNumber: nat
    var index: seq<IndexPoint>
    var iSize: nat
    var indexCountP: nat
    ghost var runs: seq<Run>
    ghost var marks: seq<nat>

    ghost predicate Valid()
      reads this
    {
      |buff| <= size
      && Holds(buff, entryCountP, startBlock, inodeNumber, entryCount, index, indexCountP, iSize, runs, marks)
    }

    /** scan2_init_dir; the last two fields are not initialised. */
    constructor (startBlock: nat, inodeNumber: nat)
      ensures Valid() && runs == [] && index == []
    {
      buff, size, entryCount, entryCountP := [], 8192, 256, -1;
      this.startBlock, this.inodeNumber := startBlock, inodeNumber;
      index, iSize, indexCountP := [], 0, 0;
      runs, marks := [], [];
    }

    /** The open run takes the entry and the bytes since the last index point stay within 8192. */
    ghost predicate Joins(e: Entry)
      reads this
    {
      runs != [] && RunOk(Joined(Last(runs), e)) && |buff| + 5 + |e.name| - indexCountP <= 8192
    }

    method PatchHeader()
      requires entryCountP >= 0 && Body(buff, entryCountP, startBlock, inodeNumber, entryCount, runs)
      modifies this`buff
      ensures buff == RunsBytes(runs) && |buff| == |old(buff)|
    {
      BodyPatched(buff, entryCountP, startBlock, inodeNumber, entryCount, runs);
      var header := HeaderBytes(entryCount, startBlock, inodeNumber);
      buff := buff[..entryCountP] + header + buff[entryCountP + 9..];
    }

    /** The bytes since the last index point would pass 8192 with this name. */
    predicate Far(name: seq<Byte>)
      reads this
    {
      entryCountP >= 0 && |buff| + 5 + |name| - indexCountP > 8192
    }

    /** An index point is set at the end of the buffer when the entry, which is to begin a run, is too far. */
    method SetPoint(e: Entry)
      requires Points(|buff|, index, indexCountP, iSize, runs, marks) && RunsOk(runs) && |buff| == |RunsBytes(runs)|
      requires (entryCountP < 0 <==> runs == []) && EntryOk(e) && |e.name| <= NAME_LEN
      modifies this`index, this`iSize, this`indexCountP, this`marks
      ensures Points(|buff| + 14 + |e.name|, index, indexCountP, iSize, runs + [Run(e.block, e.number, [e])], marks)
      ensures index == if runs != [] && |buff| + 5 + |e.name| - old(indexCountP) > 8192
                       then old(index) + [IndexPoint(|buff|, 0, e.name)] else old(index)
    {
      ghost var r := Run(e.block, e.number, [e]);
      assert RunOk(r) && r.entries[0] == e;
      if Far(e.name) {
        PointsFar(|buff|, index, indexCountP, iSize, runs, marks, r);
        index := index + [IndexPoint(|buff|, 0, e.name)];
        iSize := iSize + 9 + |e.name|;
        indexCountP := |buff|;
        marks := marks + [|runs|];
      } else {
        PointsNear(|buff|, index, indexCountP, iSize, runs, marks, r);
      }
    }

    /** The header of the open run is written. */
    method CloseRun()
      requires Valid()
      modifies this`buff
      ensures RunsOk(runs) && buff == RunsBytes(runs) && |buff| == |old(buff)|
    {
      if entryCountP >= 0 { PatchHeader(); }
    }

    /** A new run takes the entry. `hole` is what memory holds where its header will go. */
    method StartRun(e: Entry, hole: seq<Byte>)
      requires RunsOk(runs) && buff == RunsBytes(runs) && EntryOk(e) && |e.name| <= NAME_LEN && |hole| == 9
      requires Points(|buff| + 14 + |e.name|, index, indexCountP, iSize, runs + [Run(e.block, e.number, [e])], marks)
      requires |buff| + 14 + |e.name| <= size
      modifies this
      ensures Valid() && runs == old(runs) + [Run(e.block, e.number, [e])] && index == old(index)
    {
      FreshLength(e);
      HoldsBreak(index, indexCountP, iSize, runs, marks, e, hole);
      hide Holds, Points, RunsOk, EntryOk, EntryBytes, RunsBytes;
      entryCountP := |buff|;
      startBlock := e.block;
      inodeNumber := e.number;
      buff := buff + hole + EntryBytes(e, e.number);
      entryCount := 1;
      runs := runs + [Run(e.block, e.number, [e])];
    }

    method BreakRun(e: Entry, hole: seq<Byte>)
      requires Valid() && EntryOk(e) && |e.name| <= NAME_LEN && |hole| == 9
      requires |buff| + 14 + |e.name| <= size
      modifies this
      ensures Valid() && runs == old(runs) + [Run(e.block, e.number, [e])]
      ensures index == if old(runs) != [] && |old(buff)| + 5 + |e.name| - old(indexCountP) > 8192
                       then old(index) + [IndexPoint(|old(buff)|, 0, e.name)] else old(index)
    {
      assert (entryCountP < 0 <==> runs == []) && Points(|buff|, index, indexCountP, iSize, runs, marks);
      hide *;
      CloseRun();
      SetPoint(e);
      StartRun(e, hole);
    }

    method Join(e: Entry)
      requires Valid() && Joins(e) && |buff| + 5 + |e.name| <= size
      modifies this
      ensures Valid() && runs == Front(old(runs)) + [Joined(Last(old(runs)), e)] && index == old(index)
    {
      assert entryCountP >= 0;
      HoldsJoin(buff, entryCountP, startBlock, inodeNumber, entryCount, index, indexCountP, iSize, runs, marks, e);
      hide Holds, RunOk;
      buff := buff + EntryBytes(e, inodeNumber);
      entryCount := entryCount + 1;
      runs := Front(runs) + [Joined(Last(runs), e)];
    }

    /** The test of add_dir for a new run. */
    predicate NeedsRun(e: Entry)
      reads this
    {
      || entryCount == 256 || e.block != startBlock
      || Far(e.name)
      || e.number - inodeNumber > 32767 || e.number - inodeNumber < -32768
    }

    lemma NeedsRunExactly(e: Entry)
      requires Valid() && EntryOk(e) && |e.name| <= NAME_LEN
      ensures NeedsRun(e) <==> !Joins(e)
    {
      if runs != [] { JoinedOk(Last(runs), e); }
    }

    /** The entry joins the open run, or begins a new one. */
    method TakeEntry(e: Entry, hole: seq<Byte>)
      requires Valid() && EntryOk(e) && |e.name| <= NAME_LEN && |hole| == 9 && |buff| + 14 + |e.name| <= size
      modifies this
      ensures Valid() && Listing(runs) == Listing(old(runs)) + [e]
      ensures if old(Joins(e)) then runs == Front(old(runs)) + [Joined(Last(old(runs)), e)] && index == old(index)
              else && runs == old(runs) + [Run(e.block, e.number, [e])]
                   && index == if old(runs) != [] && |old(buff)| + 5 + |e.name| - old(indexCountP) > 8192
                               then old(index) + [IndexPoint(|old(buff)|, 0, e.name)] else old(index)
    {
      assert RunsOk(runs);
      NeedsRunExactly(e);
      hide Holds, RunOk;
      if NeedsRun(e) {
        FreshRun(runs, e);
        BreakRun(e, hole);
      } else {
        ListingJoin(runs, e);
        Join(e);
      }
    }

    /** add_dir: names are cut to 256 bytes. `hole` is what memory holds where a new header would go. */
    method AddDir(entry: Entry, hole: seq<Byte>)
      requires Valid() && EntryOk(entry) && |hole| == 9
      modifies this
      ensures var e := entry.(name := if |entry.name| > 256 then entry.name[..256] else entry.name);
              && Valid() && Listing(runs) == Listing(old(runs)) + [e] && e == Truncated(entry)
              && if old(Joins(e)) then runs == Front(old(runs)) + [Joined(Last(old(runs)), e)] && index == old(index)
                 else && runs == old(runs) + [Run(e.block, e.number, [e])]
                      && index == if old(runs) != [] && |old(buff)| + 5 + |e.name| - old(indexCountP) > 8192
                                  then old(index) + [IndexPoint(|old(buff)|, 0, e.name)] else old(index)
    {
      hide Holds, RunOk, Listing;
      var e := Truncated(entry);
      if |buff| + 5 + |e.name| + 9 >= size { size := size + 8192; }
      TakeEntry(e, hole);
    }
  }
}
