/** The table of fragment blocks, 16 bytes an entry, in metadata blocks of its own. The length of the
    last block is taken as the remainder of the table's length by 8192. */
module FragmentTable {
  import opened Compression
  import opened MetadataStream

  const ENTRY_SIZE := 16

  /** SQUASHFS_FRAGMENT_INDEXES. */
  function MetaBlocks(length: nat): (n: nat)
    ensures if length == 0 then n == 0 else 8192 * n - 8192 < length <= 8192 * n
  {
    (length + 8191) / 8192
  }

  lemma LastLength(length: nat)
    requires length > 0
    ensures var rest := length - 8192 * (MetaBlocks(length) - 1);
            length % 8192 == if rest == 8192 then 0 else rest
  {
    var n, rest := MetaBlocks(length), length - 8192 * (MetaBlocks(length) - 1);
    if rest == 8192 { Split(n, 0); } else { Split(n - 1, rest); }
  }

  /** The block in `cbuffer`, of the length its size word gives. `cbuffer` and what lies behind it keep old bytes. */
  method FillBuffer(o: Options, data: seq<Byte>, cbuffer: seq<Byte>) returns (written: seq<Byte>, cbuffer': seq<Byte>)
    requires Faithful(o.codec) && |data| <= 8192 && |cbuffer| >= 0x8003
    ensures |cbuffer'| == |cbuffer|
    ensures data != [] ==> written == Emit(o, data)
    ensures data == [] ==> |written| == HeaderSize(o) + 0x8000 && WordAt(written, 0) == 0x8000
  {
    var m := Mangle(o.codec, data, o.raw, METADATA_BIT);
    if data != [] { MangleRoundTrip(o.codec, data, o.raw, METADATA_BIT); }
    var filled := [m.word % 256, m.word / 256] + (if o.check then [MARKER] else []) + m.bytes;
    cbuffer' := filled + cbuffer[|filled|..];
    written := cbuffer'[..StoredSize(m.word, METADATA_BIT) + HeaderSize(o)];
  }

  ghost predicate BlockAt(o: Options, image: seq<Byte>, start: nat, data: seq<Byte>)
    requires Faithful(o.codec) && |data| <= 8192
  {
    if data == [] then BlockInside(o, image, start) && WordAt(image, start) == 0x8000
    else start + |Emit(o, data)| <= |image| && image[start..start + |Emit(o, data)|] == Emit(o, data)
  }

  lemma BlockAtEnd(o: Options, image: seq<Byte>, data: seq<Byte>, written: seq<Byte>, more: seq<Byte>)
    requires Faithful(o.codec) && |data| <= 8192
    requires if data != [] then written == Emit(o, data) else |written| == HeaderSize(o) + 0x8000 && WordAt(written, 0) == 0x8000
    ensures BlockAt(o, image + written + more, |image|, data)
  {
    var all := image + written + more;
    assert all[|image|..|image| + |written|] == written;
    assert all[|image|] == written[0] && all[|image| + 1] == written[1];
  }

  lemma BlockAtStays(o: Options, image: seq<Byte>, more: seq<Byte>, start: nat, data: seq<Byte>)
    requires Faithful(o.codec) && |data| <= 8192 && BlockAt(o, image, start, data)
    ensures BlockAt(o, image + more, start, data)
  {
    if data != [] {
      hide Emit;
      assert (image + more)[start..start + |Emit(o, data)|] == image[start..start + |Emit(o, data)|];
    }
  }

  /** What the loop writes for block i. */
  function Part(entries: seq<Byte>, i: nat): (r: seq<Byte>)
    ensures |r| <= 8192
  {
    var n := MetaBlocks(|entries|);
    if i + 1 < n then entries[8192 * i..8192 * i + 8192]
    else if i + 1 == n then entries[8192 * i..8192 * i + |entries| % 8192]
    else []
  }

  ghost predicate Written(o: Options, image: seq<Byte>, list: seq<nat>, entries: seq<Byte>)
    requires Faithful(o.codec)
  {
    forall i :: 0 <= i < |list| ==> BlockAt(o, image, list[i], Part(entries, i))
  }

  /** write_fragment_table, up to the list of block positions that follows the blocks. */
  method WriteFragmentTable(o: Options, disk: seq<Byte>, entries: seq<Byte>, scratch: seq<Byte>)
    returns (disk': seq<Byte>, list: seq<nat>)
    requires Faithful(o.codec) && |scratch| >= 0x8003
    ensures disk <= disk' && |list| == MetaBlocks(|entries|) && Written(o, disk', list, entries)
  {
    disk', list := disk, [];
    var cbuffer := scratch;
    var metaBlocks := MetaBlocks(|entries|);
    var i := 0;
    while i < metaBlocks
      invariant 0 <= i == |list| <= metaBlocks && |cbuffer| == |scratch|
      invariant disk <= disk' && Written(o, disk', list, entries)
    {
      LastLength(|entries|);
      var availBytes := if i == metaBlocks - 1 then |entries| % 8192 else 8192;
      var written;
      written, cbuffer := FillBuffer(o, entries[8192 * i..8192 * i + availBytes], cbuffer);
      WrittenMore(o, disk', list, entries, written);
      list := list + [|disk'|];
      disk' := disk' + written;
      i := i + 1;
    }
  }

  lemma WrittenMore(o: Options, disk: seq<Byte>, list: seq<nat>, entries: seq<Byte>, written: seq<Byte>)
    requires Faithful(o.codec) && Written(o, disk, list, entries)
    requires var data := Part(entries, |list|);
             if data != [] then written == Emit(o, data) else |written| == HeaderSize(o) + 0x8000 && WordAt(written, 0) == 0x8000
    ensures Written(o, disk + written, list + [|disk|], entries)
  {
    BlockAtEnd(o, disk, Part(entries, |list|), written, []);
    assert disk + written + [] == disk + written;
    forall i | 0 <= i < |list| ensures BlockAt(o, disk + written, list[i], Part(entries, i)) {
      BlockAtStays(o, disk, written, list[i], Part(entries, i));
    }
  }

  /** read_fragment_table brings the table back exactly when there are no fragments or their number is no
      multiple of 512: otherwise the last block holds none of the 512 last entries. */
  method ReadFragmentTable(o: Options, image: seq<Byte>, list: seq<nat>, ghost entries: seq<Byte>, ghost fragments: nat)
    returns (table: seq<Byte>)
    requires Faithful(o.codec) && |entries| == ENTRY_SIZE * fragments
    requires |list| == MetaBlocks(|entries|) && Written(o, image, list, entries)
    ensures table == entries <==> fragments == 0 || fragments % 512 != 0
  {
    SixteenBytesEach(fragments);
    table := [];
    var i := 0;
    while i < |list|
      invariant 0 <= i <= |list| && (i == 0 ==> table == [])
      invariant i < |list| ==> |table| == 8192 * i && table == entries[..8192 * i]
      invariant i == |list| && i > 0 ==>
        if |entries| % 8192 != 0 then table == entries else |table| > |entries|
    {
      LastLength(|entries|);
      var data := ReadPart(o, image, list[i], Part(entries, i));
      table := table + data;
      i := i + 1;
    }
  }

  method ReadPart(o: Options, image: seq<Byte>, start: nat, ghost data: seq<Byte>) returns (read: seq<Byte>)
    requires Faithful(o.codec) && |data| <= 8192 && BlockAt(o, image, start, data)
    ensures if data == [] then |read| == 0x8000 else read == data
  {
    if data != [] { BlockRoundTrip(o, image, start, data); }
    var next;
    read, next := ReadBlockAt(o, image, start);
  }

  lemma SixteenBytesEach(fragments: nat)
    ensures ENTRY_SIZE * fragments % 8192 == 0 <==> fragments % 512 == 0
  {
    assert 16 * fragments == 8192 * (fragments / 512) + 16 * (fragments % 512);
    Split(fragments / 512, 16 * (fragments % 512));
  }

  /** Written and read again. */
  method WriteAndRead(o: Options, disk: seq<Byte>, entries: seq<Byte>, scratch: seq<Byte>, ghost fragments: nat)
    returns (table: seq<Byte>)
    requires Faithful(o.codec) && |scratch| >= 0x8003 && |entries| == ENTRY_SIZE * fragments
    ensures table == entries <==> fragments == 0 || fragments % 512 != 0
  {
    var disk', list := WriteFragmentTable(o, disk, entries, scratch);
    table := ReadFragmentTable(o, disk', list, entries, fragments);
  }

  /** A table that is lost: of 512 fragments not one gets into the only block. */
  method LostAt512(o: Options, disk: seq<Byte>, scratch: seq<Byte>) returns (entries: seq<Byte>, table: seq<Byte>)
    requires Faithful(o.codec) && |scratch| >= 0x8003
    ensures |entries| == ENTRY_SIZE * 512 && table != entries
    ensures MetaBlocks(|entries|) == 1 && Part(entries, 0) == []
  {
    entries := seq(ENTRY_SIZE * 512, _ => 0);
    table := WriteAndRead(o, disk, entries, scratch, 512);
  }
}
