/** The compressed inode and directory tables: how mksquashfs cuts a stream of bytes into blocks while
    it hands out (block, offset) references, and how unsquashfs turns such references back into
    positions of the uncompressed stream. */
module MetadataStream {
  import opened Compression

  // SQUASHFS_METADATA_SIZE, 8192, is written out below so that products with it stay linear.
  const MARKER: Byte := 0xff

  /** `raw`: inodes stored uncompressed; `check`: a marker byte follows each size word. */
  datatype Options = Options(codec: Codec, raw: bool, check: bool)

  // ---------- One block ----------

  function Emit(o: Options, data: seq<Byte>): seq<Byte>
    requires 0 < |data| <= 8192 && Faithful(o.codec)
  {
    MangleRoundTrip(o.codec, data, o.raw, METADATA_BIT);
    var m := Mangle(o.codec, data, o.raw, METADATA_BIT);
    [m.word % 256, m.word / 256] + (if o.check then [MARKER] else []) + m.bytes
  }

  /** The bytes of a metadata block: two of the size word, with the top bit set when the data are stored as they are,
      then the marker 0xff if there are markers, then the data as they are or compressed. */
  lemma EmitStores(o: Options, data: seq<Byte>)
    requires 0 < |data| <= 8192 && Faithful(o.codec)
    ensures var asIs := o.raw || |o.codec.compress(data)| >= |data|;
            var body := if asIs then data else o.codec.compress(data);
            var word := if asIs then 0x8000 + |data| else |body|;
            word < 0x10000 && Emit(o, data) == [word % 256, word / 256] + (if o.check then [0xff] else []) + body
  {
    MangleStores(o.codec, data, o.raw, METADATA_BIT);
  }

  function HeaderSize(o: Options): nat { if o.check then 3 else 2 }

  function WordAt(image: seq<Byte>, start: nat): nat
    requires start + 2 <= |image|
  {
    (image[start] as int) + 256 * (image[start + 1] as int)
  }

  /** The block at `start` ends inside the image. */
  predicate BlockInside(o: Options, image: seq<Byte>, start: nat) {
    start + 2 <= |image| && start + HeaderSize(o) + StoredSize(WordAt(image, start), METADATA_BIT) <= |image|
  }

  function ReadBlock(o: Options, image: seq<Byte>, start: nat): (r: (seq<Byte>, nat))
    requires BlockInside(o, image, start)
    ensures start < r.1 <= |image|
  {
    var word := WordAt(image, start);
    var from := start + HeaderSize(o);
    var next := from + StoredSize(word, METADATA_BIT);
    (Unmangle(o.codec, word, image[from..next], METADATA_BIT), next)
  }

  lemma BlockRoundTrip(o: Options, image: seq<Byte>, start: nat, data: seq<Byte>)
    requires Faithful(o.codec) && 0 < |data| <= 8192
    requires start + |Emit(o, data)| <= |image| && image[start..start + |Emit(o, data)|] == Emit(o, data)
    ensures BlockInside(o, image, start) && ReadBlock(o, image, start) == (data, start + |Emit(o, data)|)
    ensures |Emit(o, data)| >= 3
  {
    MangleRoundTrip(o.codec, data, o.raw, METADATA_BIT);
    var m := Mangle(o.codec, data, o.raw, METADATA_BIT);
    var e := Emit(o, data);
    var block := image[start..start + |e|];
    assert e[0] == m.word % 256 && e[1] == m.word / 256 && block == e;
    assert image[start] == block[0] && image[start + 1] == block[1];
    assert WordAt(image, start) == m.word;
    assert block[HeaderSize(o)..] == m.bytes;
    assert image[start + HeaderSize(o)..start + |e|] == block[HeaderSize(o)..];
  }

  // ---------- A whole stream ----------

  /** Block k of a stream: 8192 bytes, or what is left of the last block. */
  function Chunk(stream: seq<Byte>, k: nat): seq<Byte> {
    if 8192 * (k + 1) <= |stream| then stream[8192 * k..8192 * (k + 1)]
    else if 8192 * k <= |stream| then stream[8192 * k..]
    else []
  }

  /** The first n blocks of a stream as they lie in the table. */
  function Table(o: Options, stream: seq<Byte>, n: nat): seq<Byte>
    requires Faithful(o.codec) && (n > 0 ==> 8192 * (n - 1) < |stream|)
  {
    if n == 0 then [] else Table(o, stream, n - 1) + Emit(o, Chunk(stream, n - 1))
  }

  /** n blocks hold the stream, and no fewer. */
  predicate Covers(stream: seq<Byte>, n: nat) { 8192 * n - 8192 < |stream| <= 8192 * n }

  /** Full blocks do not change when the stream grows. */
  lemma {:induction false} TableGrows(o: Options, stream: seq<Byte>, more: seq<Byte>, n: nat)
    requires Faithful(o.codec) && 8192 * n <= |stream|
    ensures Table(o, stream + more, n) == Table(o, stream, n)
  {
    if n > 0 {
      TableGrows(o, stream, more, n - 1);
      assert Chunk(stream + more, n - 1) == Chunk(stream, n - 1);
    }
  }

  lemma {:induction false} TablePrefix(o: Options, stream: seq<Byte>, k: nat, n: nat)
    requires Faithful(o.codec) && (n > 0 ==> 8192 * (n - 1) < |stream|) && k <= n
    ensures |Table(o, stream, k)| + 3 * (n - k) <= |Table(o, stream, n)|
    ensures Table(o, stream, n)[..|Table(o, stream, k)|] == Table(o, stream, k)
  {
    if k < n {
      TablePrefix(o, stream, k, n - 1);
      var e := Emit(o, Chunk(stream, n - 1));
      MangleRoundTrip(o.codec, Chunk(stream, n - 1), o.raw, METADATA_BIT);
    }
  }

  // ---------- References ----------

  /** What MKINODE packs: the start of the block in the table and the offset inside the block. */
  datatype Ref = Ref(block: nat, offset: nat)

  /** The reference to position p of a stream. */
  function RefTo(o: Options, stream: seq<Byte>, p: nat): Ref
    requires Faithful(o.codec) && p <= |stream|
  {
    Ref(|Table(o, stream, p / 8192)|, p % 8192)
  }

  /** A reference stays right while the stream grows behind it. */
  lemma RefStable(o: Options, stream: seq<Byte>, more: seq<Byte>, p: nat)
    requires Faithful(o.codec) && p <= |stream|
    ensures RefTo(o, stream + more, p) == RefTo(o, stream, p)
  {
    TableGrows(o, stream, more, p / 8192);
  }

  // ---------- The writer ----------

  lemma Split(n: nat, c: nat)
    requires c < 8192
    ensures (8192 * n + c) / 8192 == n && (8192 * n + c) % 8192 == c
  {
  }

  lemma RefBlock(o: Options, stream: seq<Byte>, p: nat, n: nat)
    requires Faithful(o.codec) && 8192 * n <= p <= |stream| && p < 8192 * n + 8192
    ensures RefTo(o, stream, p).block == |Table(o, stream, n)|
  {
    Split(n, p - 8192 * n);
    assert p / 8192 == n;
  }

  class Writer {
    const o: Options
    var table: seq<Byte>
    var cache: seq<Byte>
    ghost var stream: seq<Byte>
    ghost var flushed: nat

    ghost predicate Valid()
      reads this
    {
      && Faithful(o.codec)
      && |stream| == 8192 * flushed + |cache| && cache == stream[8192 * flushed..]
      && table == Table(o, stream, flushed)
    }

    constructor (o: Options)
      requires Faithful(o.codec)
      ensures Valid() && stream == [] && this.o == o && cache == []
    {
      this.o := o;
      table, cache, stream, flushed := [], [], [], 0;
    }

    /** Compresses the first 8192 cached bytes. */
    method FlushBlock()
      requires Valid() && |cache| >= 8192
      modifies this
      ensures Valid() && stream == old(stream) && flushed == old(flushed) + 1
      ensures cache == old(cache)[8192..] && table == old(table) + Emit(o, old(cache)[..8192])
    {
      assert Chunk(stream, flushed) == cache[..8192];
      hide Emit;
      table := table + Emit(o, cache[..8192]);
      cache := cache[8192..];
      flushed := flushed + 1;
    }

    /** Where the next byte will go. */
    method Here() returns (ref: Ref)
      requires Valid() && |cache| < 8192
      ensures ref == RefTo(o, stream, |stream|) && ref.offset < 8192
      ensures ref == Ref(|table|, |cache|)
    {
      Split(flushed, |cache|);
      ref := Ref(|table|, |cache|);
    }

    method Append(data: seq<Byte>)
      requires Valid()
      modifies this
      ensures Valid() && stream == old(stream) + data && cache == old(cache) + data
      ensures table == old(table) && flushed == old(flushed)
    {
      TableGrows(o, stream, data, flushed);
      stream := stream + data;
      cache := cache + data;
    }

    /** get_inode together with the bytes its caller stores: full blocks leave the cache first. */
    method GetInode(req: seq<Byte>) returns (ref: Ref)
      requires Valid()
      modifies this
      ensures Valid() && stream == old(stream) + req
      ensures ref == RefTo(o, stream, |old(stream)|) && ref.offset < 8192
    {
      while |cache| >= 8192
        invariant Valid() && stream == old(stream)
        decreases |cache|
      {
        FlushBlock();
      }
      ref := Here();
      RefStable(o, stream, req, |stream|);
      Append(req);
    }

    /** n blocks are out and the cache holds what follows them. */
    ghost predicate Draining(n: nat)
      reads this
    {
      && Faithful(o.codec) && 8192 * n - 8192 < |stream| && table == Table(o, stream, n)
      && if cache == [] then |stream| <= 8192 * n
         else |stream| == 8192 * n + |cache| && cache == stream[8192 * n..]
    }

    method FlushSome(ghost n: nat)
      requires Draining(n) && cache != []
      modifies this`table, this`cache
      ensures Draining(n + 1) && |cache| < |old(cache)|
    {
      var avail := if |cache| > 8192 then 8192 else |cache|;
      assert Chunk(stream, n) == cache[..avail];
      table := table + Emit(o, cache[..avail]);
      cache := cache[avail..];
    }

    /** write_inodes and write_directories: the rest of the cache goes out in blocks of up to 8192 bytes. */
    method Finish() returns (ghost n: nat)
      requires Valid()
      modifies this`table, this`cache
      ensures cache == [] && Covers(stream, n) && table == Table(o, stream, n)
    {
      hide Table;
      n := flushed;
      while cache != []
        invariant Draining(n)
        decreases |cache|
      {
        FlushSome(n);
        n := n + 1;
      }
    }
  }

  // ---------- The reader ----------

  datatype Entry = Entry(start: nat, bytes: nat)

  /** lookup_entry on one chain; -1 when the block is not there. */
  function Find(chain: seq<Entry>, start: nat): int {
    if chain == [] then -1 else if chain[0].start == start then chain[0].bytes else Find(chain[1..], start)
  }

  function Hash(start: nat): (h: nat)
    ensures h < 65536
  {
    start % 65536
  }

  /** The chained hash table from the start of a block to its position in the uncompressed table. */
  class HashTable {
    ghost var contents: map<nat, nat>
    var chains: array<seq<Entry>>

    ghost predicate Valid()
      reads this, chains
    {
      && chains.Length == 65536
      && forall start: nat :: Find(chains[Hash(start)], start) == if start in contents then contents[start] else -1
    }

    constructor ()
      ensures Valid() && fresh(chains) && contents == map[]
    {
      chains := new seq<Entry>[65536](_ => []);
      contents := map[];
    }

    method AddEntry(start: nat, bytes: nat)
      requires Valid()
      modifies this, chains
      ensures Valid() && chains == old(chains) && contents == old(contents)[start := bytes]
    {
      var hash := Hash(start);
      chains[hash] := [Entry(start, bytes)] + chains[hash];
      contents := contents[start := bytes];
    }

    method LookupEntry(start: nat) returns (bytes: int)
      requires Valid()
      ensures bytes == if start in contents then contents[start] else -1
    {
      var chain := chains[Hash(start)];
      var i := 0;
      while i < |chain|
        invariant 0 <= i <= |chain| && Find(chain[i..], start) == Find(chain, start)
      {
        if chain[i].start == start { return chain[i].bytes; }
        assert chain[i..][1..] == chain[i + 1..];
        i := i + 1;
      }
      return -1;
    }
  }

  /** The table of the stream, n blocks, lies at position `at` of the image. */
  ghost predicate TableAt(o: Options, image: seq<Byte>, at: nat, stream: seq<Byte>, n: nat) {
    && Faithful(o.codec) && Covers(stream, n)
    && at + |Table(o, stream, n)| <= |image|
    && image[at..at + |Table(o, stream, n)|] == Table(o, stream, n)
  }

  lemma TableSlice(o: Options, stream: seq<Byte>, k: nat, n: nat)
    requires Faithful(o.codec) && Covers(stream, n) && k < n
    ensures 8192 * k < |stream|
    ensures var t := Table(o, stream, n);
            && |Table(o, stream, k)| + |Emit(o, Chunk(stream, k))| == |Table(o, stream, k + 1)| <= |t|
            && t[|Table(o, stream, k)|..|Table(o, stream, k + 1)|] == Emit(o, Chunk(stream, k))
  {
    TablePrefix(o, stream, k + 1, n);
    var t := Table(o, stream, n);
    assert t[|Table(o, stream, k)|..|Table(o, stream, k + 1)|] == t[..|Table(o, stream, k + 1)|][|Table(o, stream, k)|..];
  }

  lemma {:induction false} RawLength(o: Options, stream: seq<Byte>, n: nat)
    requires Faithful(o.codec) && o.raw && 8192 * n <= |stream|
    ensures |Table(o, stream, n)| == if o.check then 8195 * n else 8194 * n
  {
    if n > 0 {
      RawLength(o, stream, n - 1);
      EmitStores(o, Chunk(stream, n - 1));
    }
  }

  /** A block stored as it is: its length with the top bit set, the marker if there are markers, its bytes. */
  function AsItIs(check: bool, data: seq<Byte>): seq<Byte>
    requires |data| <= 8192
  {
    [|data| % 256, 0x80 + |data| / 256] + (if check then [0xff] else []) + data
  }

  lemma RawBlock(o: Options, data: seq<Byte>)
    requires 0 < |data| <= 8192 && Faithful(o.codec) && o.raw
    ensures Emit(o, data) == AsItIs(o.check, data)
  {
    EmitStores(o, data);
    assert (0x8000 + |data|) % 256 == |data| % 256 && (0x8000 + |data|) / 256 == 0x80 + |data| / 256;
  }

  /** Stored without compression, the table is the stream itself with a header of two bytes, or three with a marker,
      in front of every 8192: block k begins at k times their sum. */
  lemma RawTable(o: Options, stream: seq<Byte>, n: nat, k: nat)
    requires Faithful(o.codec) && o.raw && Covers(stream, n) && k < n
    ensures |Table(o, stream, k)| == if o.check then 8195 * k else 8194 * k
    ensures |Table(o, stream, k)| <= |Table(o, stream, k + 1)| <= |Table(o, stream, n)|
    ensures var end := if 8192 * (k + 1) <= |stream| then 8192 * (k + 1) else |stream|;
            8192 * k < end <= 8192 * k + 8192
            && Table(o, stream, n)[|Table(o, stream, k)|..|Table(o, stream, k + 1)|] == AsItIs(o.check, stream[8192 * k..end])
  {
    var end := if 8192 * (k + 1) <= |stream| then 8192 * (k + 1) else |stream|;
    assert 8192 * k < end <= 8192 * k + 8192 && Chunk(stream, k) == stream[8192 * k..end];
    TableSlice(o, stream, k, n);
    RawLength(o, stream, k);
    RawBlock(o, stream[8192 * k..end]);
    hide *;
  }

  function StartOf(o: Options, at: nat, stream: seq<Byte>, k: nat): nat
    requires Faithful(o.codec) && 8192 * k - 8192 < |stream|
  {
    at + |Table(o, stream, k)|
  }

  lemma PieceAt(image: seq<Byte>, at: nat, t: seq<Byte>, a: nat, b: nat)
    requires at + |t| <= |image| && image[at..at + |t|] == t && a <= b <= |t|
    ensures image[at + a..at + b] == t[a..b]
  {
    forall i | 0 <= i < b - a ensures image[at + a..at + b][i] == t[a..b][i] {
      assert image[at..at + |t|][a + i] == t[a + i];
    }
  }

  /** Block k of the table lies where StartOf says. */
  lemma BlockInImage(o: Options, image: seq<Byte>, at: nat, stream: seq<Byte>, k: nat, n: nat)
    requires TableAt(o, image, at, stream, n) && k < n
    ensures 8192 * k < |stream|
    ensures var e := Emit(o, Chunk(stream, k)); var start := StartOf(o, at, stream, k);
            && StartOf(o, at, stream, k + 1) == start + |e| <= |image|
            && image[start..start + |e|] == e
  {
    TableSlice(o, stream, k, n);
    var a, b, e := |Table(o, stream, k)|, |Table(o, stream, k + 1)|, Emit(o, Chunk(stream, k));
    assert StartOf(o, at, stream, k) == at + a && StartOf(o, at, stream, k + 1) == at + b;
    PieceIs(image, at, Table(o, stream, n), a, b, e);
    hide *;
  }

  lemma PieceIs(image: seq<Byte>, at: nat, t: seq<Byte>, a: nat, b: nat, e: seq<Byte>)
    requires at + |t| <= |image| && image[at..at + |t|] == t && a + |e| == b <= |t| && t[a..b] == e
    ensures image[at + a..at + a + |e|] == e
  {
    PieceAt(image, at, t, a, b);
  }

  /** read_block. */
  method ReadBlockAt(o: Options, image: seq<Byte>, start: nat) returns (data: seq<Byte>, next: nat)
    requires BlockInside(o, image, start)
    ensures (data, next) == ReadBlock(o, image, start)
  {
    var word := WordAt(image, start);
    var offset := if o.check then 3 else 2;
    next := start + offset + StoredSize(word, METADATA_BIT);
    data := image[start + offset..next];
    if IsCompressed(word, METADATA_BIT) {
      data := o.codec.uncompress(data);
    }
  }

  /** Reading at the start of block k yields block k and the start of the next one. */
  method NextBlock(o: Options, image: seq<Byte>, cur: nat, ghost at: nat, ghost stream: seq<Byte>, ghost k: nat, ghost n: nat)
    returns (data: seq<Byte>, next: nat)
    requires TableAt(o, image, at, stream, n) && k < n && cur == StartOf(o, at, stream, k)
    ensures data == Chunk(stream, k) && next == StartOf(o, at, stream, k + 1) > cur
  {
    BlockInImage(o, image, at, stream, k, n);
    BlockRoundTrip(o, image, cur, Chunk(stream, k));
    data, next := ReadBlockAt(o, image, cur);
  }

  /** The stream up to block k of n. */
  function UpTo(stream: seq<Byte>, k: nat, n: nat): seq<Byte>
    requires Covers(stream, n) && k <= n
  {
    if k < n then stream[..8192 * k] else stream
  }

  lemma ChunkFollows(stream: seq<Byte>, k: nat, n: nat)
    requires Covers(stream, n) && k < n
    ensures UpTo(stream, k, n) + Chunk(stream, k) == UpTo(stream, k + 1, n)
  {
  }

  method LoadBlock(o: Options, image: seq<Byte>, cur: nat, table: seq<Byte>, ghost at: nat, ghost stream: seq<Byte>, ghost k: nat, ghost n: nat)
    returns (longer: seq<Byte>, next: nat)
    requires TableAt(o, image, at, stream, n) && k < n
    requires cur == StartOf(o, at, stream, k) && table == UpTo(stream, k, n)
    ensures |table| == 8192 * k && longer == UpTo(stream, k + 1, n) && next == StartOf(o, at, stream, k + 1) > cur
  {
    var data;
    data, next := NextBlock(o, image, cur, at, stream, k, n);
    ChunkFollows(stream, k, n);
    longer := table + data;
  }

  /** The starts of the first k blocks are entered with their positions, and nothing from there on is. */
  ghost predicate Indexed(o: Options, at: nat, stream: seq<Byte>, contents: map<nat, nat>, k: nat)
    requires Faithful(o.codec) && 8192 * k - 8192 < |stream|
  {
    && (forall j: nat :: j < k ==> var s := StartOf(o, at, stream, j); s in contents && contents[s] == 8192 * j)
    && (forall s :: s in contents ==> s < StartOf(o, at, stream, k))
  }

  lemma IndexedStep(o: Options, at: nat, stream: seq<Byte>, contents: map<nat, nat>, k: nat)
    requires Faithful(o.codec) && 8192 * k < |stream| && Indexed(o, at, stream, contents, k)
    requires StartOf(o, at, stream, k) < StartOf(o, at, stream, k + 1)
    ensures Indexed(o, at, stream, contents[StartOf(o, at, stream, k) := 8192 * k], k + 1)
  {
  }

  /** uncompress_inode_table and uncompress_directory_table: the stream comes back whole and the start
      of every block is entered into the hash table with its position. */
  method LoadTable(o: Options, image: seq<Byte>, start: nat, end: nat, ghost stream: seq<Byte>, ghost n: nat)
    returns (table: seq<Byte>, hash: HashTable)
    requires TableAt(o, image, start, stream, n) && end == StartOf(o, start, stream, n)
    ensures table == stream && fresh(hash) && fresh(hash.chains) && hash.Valid()
    ensures Indexed(o, start, stream, hash.contents, n)
  {
    hide Emit, HashTable.Valid;
    hash := new HashTable();
    table := [];
    var cur := start;
    ghost var k: nat := 0;
    while cur < end
      invariant k <= n && cur == StartOf(o, start, stream, k) && table == UpTo(stream, k, n)
      invariant fresh(hash) && fresh(hash.chains) && hash.Valid()
      invariant Indexed(o, start, stream, hash.contents, k)
      decreases n - k
    {
      ghost var before := hash.contents;
      hash.AddEntry(cur, |table|);
      table, cur := LoadBlock(o, image, cur, table, start, stream, k, n);
      IndexedStep(o, start, stream, before, k);
      k := k + 1;
    }
    if k < n { TablePrefix(o, stream, k, n); }
  }

  /** The reference to position p, looked up through the hash table, leads back to p. */
  ghost predicate Resolves(o: Options, start: nat, stream: seq<Byte>, contents: map<nat, nat>, p: nat)
    requires Faithful(o.codec) && p <= |stream|
  {
    var ref := RefTo(o, stream, p);
    start + ref.block in contents && contents[start + ref.block] + ref.offset == p
  }

  lemma IndexedResolves(o: Options, start: nat, stream: seq<Byte>, contents: map<nat, nat>, n: nat, p: nat)
    requires Faithful(o.codec) && Covers(stream, n) && Indexed(o, start, stream, contents, n) && p < |stream|
    ensures Resolves(o, start, stream, contents, p)
  {
    var j: nat := p / 8192;
    assert 8192 * j <= p < 8192 * n;
    assert j < n;
    assert start + RefTo(o, stream, p).block == StartOf(o, start, stream, j);
  }

  /** A position at the end of the stream is found as well, unless the stream ends on a block boundary:
      there is no block behind that. */
  lemma ResolvesExactly(o: Options, start: nat, stream: seq<Byte>, contents: map<nat, nat>, n: nat, p: nat)
    requires Faithful(o.codec) && Covers(stream, n) && Indexed(o, start, stream, contents, n) && p <= |stream|
    ensures Resolves(o, start, stream, contents, p) <==> !(p == |stream| && p % 8192 == 0)
    ensures !Resolves(o, start, stream, contents, p) ==> start + RefTo(o, stream, p).block !in contents
  {
    var j: nat := p / 8192;
    if j < n {
      assert start + RefTo(o, stream, p).block == StartOf(o, start, stream, j);
    } else {
      assert j == n && p == 8192 * n;
    }
  }

  /** The block of a reference is looked up and the offset added; -1 where the block is not there. */
  method Locate(hash: HashTable, start: nat, ref: Ref, ghost o: Options, ghost stream: seq<Byte>, ghost n: nat, ghost p: nat)
    returns (at: int)
    requires hash.Valid() && Faithful(o.codec) && Covers(stream, n) && Indexed(o, start, stream, hash.contents, n)
    requires p <= |stream| && ref == RefTo(o, stream, p)
    ensures at == if p == |stream| && p % 8192 == 0 then -1 else p
  {
    ResolvesExactly(o, start, stream, hash.contents, n, p);
    at := hash.LookupEntry(start + ref.block);
    if at != -1 { at := at + ref.offset; }
  }

  /** Every reference that the writer handed out to a byte of the stream is resolved to that byte. */
  method UncompressTable(o: Options, image: seq<Byte>, start: nat, end: nat, ghost stream: seq<Byte>, ghost n: nat)
    returns (table: seq<Byte>, hash: HashTable)
    requires TableAt(o, image, start, stream, n) && end == StartOf(o, start, stream, n)
    ensures table == stream && fresh(hash) && fresh(hash.chains) && hash.Valid()
    ensures forall p :: 0 <= p < |stream| ==> Resolves(o, start, stream, hash.contents, p)
  {
    table, hash := LoadTable(o, image, start, end, stream, n);
    forall p | 0 <= p < |stream|
      ensures Resolves(o, start, stream, hash.contents, p)
    {
      IndexedResolves(o, start, stream, hash.contents, n, p);
    }
  }
}
