/** How unsquashfs brings the contents of a file back. */
module FileReader {
  import opened Options
  import opened Compression
  import opened FileBlocks
  import opened FileWriter

  lemma CopyStep(z: Codec, disk: seq<Byte>, at: nat, words: seq<nat>, i: nat, copied: seq<Byte>)
    requires i < |words|
    ensures var block, next := ReadData(z, disk, at, words[i]), at + StoredSize(words[i], DATA_BIT);
            && copied + ReadBlocks(z, disk, at, words[i..]) == copied + block + ReadBlocks(z, disk, next, words[i + 1..])
            && AllRead(z, disk, at, words[i..]) == (block != [] && AllRead(z, disk, next, words[i + 1..]))
  {
    hide ReadData, StoredSize;
    assert words[i..][1..] == words[i + 1..];
    var block, next := ReadData(z, disk, at, words[i]), at + StoredSize(words[i], DATA_BIT);
    var rest := ReadBlocks(z, disk, next, words[i + 1..]);
    assert ReadBlocks(z, disk, at, words[i..]) == block + rest;
    assert copied + (block + rest) == copied + block + rest;
  }

  lemma CopyEnd(z: Codec, disk: seq<Byte>, at: nat)
    ensures ReadBlocks(z, disk, at, []) == [] && AllRead(z, disk, at, [])
  {
  }

  class Extractor {
    const o: FileOptions
    const disk: seq<Byte>
    const fragmentTable: seq<FragmentEntry>
    var cachedFrag: Option<nat>
    var fragmentData: seq<Byte>
    ghost const blocks: seq<seq<Byte>>   // what the fragment blocks were made from

    ghost predicate Valid()
      reads this
    {
      && OptionsOk(o) && FragmentsStored(o, disk, fragmentTable, blocks)
      && (cachedFrag.Some? ==> cachedFrag.value < |blocks| && fragmentData == blocks[cachedFrag.value])
    }

    constructor (o: FileOptions, disk: seq<Byte>, fragmentTable: seq<FragmentEntry>, ghost blocks: seq<seq<Byte>>)
      requires OptionsOk(o) && FragmentsStored(o, disk, fragmentTable, blocks)
      ensures Valid() && this.o == o && this.disk == disk && this.blocks == blocks
    {
      this.o, this.disk, this.fragmentTable, this.blocks := o, disk, fragmentTable, blocks;
      cachedFrag, fragmentData := None, [];
    }

    /** read_fragment: the fragment block read last is kept. */
    method ReadFragment(fragment: nat) returns (data: seq<Byte>)
      requires Valid() && fragment < |blocks|
      modifies this
      ensures Valid() && data == blocks[fragment] && data != []
    {
      assert FragmentStored(o, disk, fragmentTable[fragment], blocks[fragment]);
      if cachedFrag.None? || fragment != cachedFrag.value {
        var e := fragmentTable[fragment];
        FragmentReads(o, disk, e, blocks[fragment]);
        fragmentData := ReadData(o.codec, disk, e.start, e.word);
        cachedFrag := Some(fragment);
      }
      data := fragmentData;
    }

    /** The part of create_inode that deals with a regular file, and write_file: None where a block comes back empty. */
    method WriteFile(inode: Inode) returns (file: Option<seq<Byte>>)
      requires Valid() && |inode.blockList| == ReaderBlocks(o.blockSize, inode)
      requires FragmentOk(blocks, inode.fragment.(size := ReaderTail(o.blockSize, inode)))
      modifies this
      ensures Valid()
      ensures file == if AllRead(o.codec, disk, inode.start, inode.blockList) then Some(Extract(o, disk, blocks, inode)) else None
    {
      var fragBytes := if inode.fragment.index.None? then 0 else inode.size % o.blockSize;
      var data := CopyBlocks(inode.start, inode.blockList);
      if data.None? { return None; }
      if fragBytes != 0 {
        assert inode.fragment.index.Some?;
        var fragment := ReadFragment(inode.fragment.index.value);
        var offset := inode.fragment.offset;
        assert fragment[offset..offset + fragBytes] == TailIn(blocks, inode.fragment.(size := fragBytes));
        file := Some(data.value + fragment[offset..offset + fragBytes]);
      } else {
        assert data.value + [] == data.value;
        file := Some(data.value);
      }
    }

    method CopyBlocks(start: nat, blockList: seq<nat>) returns (data: Option<seq<Byte>>)
      ensures data == if AllRead(o.codec, disk, start, blockList) then Some(ReadBlocks(o.codec, disk, start, blockList)) else None
    {
      hide ReadBlocks, ReadData, AllRead, StoredSize;
      var copied: seq<Byte>, at, i := [], start, 0;
      assert blockList[0..] == blockList;
      while i < |blockList|
        invariant 0 <= i <= |blockList| && at >= 0
        invariant ReadBlocks(o.codec, disk, start, blockList) == copied + ReadBlocks(o.codec, disk, at, blockList[i..])
        invariant AllRead(o.codec, disk, start, blockList) == AllRead(o.codec, disk, at, blockList[i..])
      {
        var block := ReadData(o.codec, disk, at, blockList[i]);
        CopyStep(o.codec, disk, at, blockList, i, copied);
        if |block| == 0 { return None; }
        at := at + StoredSize(blockList[i], DATA_BIT);
        copied := copied + block;
        i := i + 1;
      }
      CopyEnd(o.codec, disk, at);
      assert blockList[i..] == [] && copied + [] == copied;
      data := Some(copied);
    }
  }
}
