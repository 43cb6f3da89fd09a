/** The contents of one file as data blocks: how they are cut, stored one behind the other with a size
    word each, and read back; and what sharing of stored bytes between files does to that. */
module FileBlocks {
  import opened Compression

  // ---------- Cutting ----------

  /** Blocks of bs bytes, the last one possibly shorter. */
  function Pieces(s: seq<Byte>, bs: nat): (r: seq<seq<Byte>>)
    requires bs > 0
    decreases |s|
  {
    if s == [] then [] else if |s| <= bs then [s] else [s[..bs]] + Pieces(s[bs..], bs)
  }

  function Concat(pieces: seq<seq<Byte>>): seq<Byte> {
    if pieces == [] then [] else pieces[0] + Concat(pieces[1..])
  }

  ghost predicate WellCut(pieces: seq<seq<Byte>>, bs: nat) {
    && (forall k :: 0 <= k < |pieces| ==> 0 < |pieces[k]| <= bs)
    && (forall k :: 0 <= k < |pieces| - 1 ==> |pieces[k]| == bs)
  }

  lemma {:induction false} PiecesWellCut(s: seq<Byte>, bs: nat)
    requires bs > 0
    ensures WellCut(Pieces(s, bs), bs) && Concat(Pieces(s, bs)) == s
    decreases |s|
  {
    if |s| > bs {
      PiecesWellCut(s[bs..], bs);
      var p, q := Pieces(s, bs), Pieces(s[bs..], bs);
      assert p[1..] == q;
      forall k | 0 <= k < |p| ensures 0 < |p[k]| <= bs && (k < |p| - 1 ==> |p[k]| == bs) {
        if k > 0 { assert p[k] == q[k - 1]; }
      }
    } else if s != [] {
      assert Pieces(s, bs)[1..] == [];
    }
  }

  /** There is only one way to cut a text. */
  lemma {:induction false} PiecesUnique(pieces: seq<seq<Byte>>, bs: nat)
    requires bs > 0 && WellCut(pieces, bs)
    ensures Pieces(Concat(pieces), bs) == pieces
  {
    if |pieces| == 1 {
      assert pieces[1..] == [] && pieces == [pieces[0]];
      assert Concat(pieces) == pieces[0];
    } else if |pieces| > 1 {
      var rest := pieces[1..];
      forall k | 0 <= k < |rest| ensures 0 < |rest[k]| <= bs && (k < |rest| - 1 ==> |rest[k]| == bs) {
        assert rest[k] == pieces[k + 1];
      }
      PiecesUnique(rest, bs);
      assert Concat(rest) == rest[0] + Concat(rest[1..]);
      assert |pieces[0]| == bs && |rest[0]| > 0;
      assert Concat(pieces)[bs..] == Concat(rest) && Concat(pieces)[..bs] == pieces[0];
    }
  }

  // ---------- Counting ----------

  lemma DivUnique(n: nat, d: nat, q: nat, r: nat)
    requires d > 0 && n == q * d + r && r < d
    ensures n / d == q && n % d == r
  {
    var a, b := n / d, n % d;
    assert n == a * d + b;
    Times(a + 1, q, d);
    Times(q + 1, a, d);
  }

  lemma Times(a: nat, b: nat, d: nat)
    ensures a <= b ==> a * d <= b * d
  {
  }

  /** The number of blocks as the readers derive it from the size and from there being a fragment. */
  function BlockCount(bs: nat, size: nat, fragment: bool): nat
    requires bs > 0
  {
    if fragment then size / bs else (size + bs - 1) / bs
  }

  /** The reader's count of blocks of a file without fragment is the writer's. */
  lemma {:induction false} CountPieces(s: seq<Byte>, bs: nat)
    requires bs > 0
    ensures |Pieces(s, bs)| == (|s| + bs - 1) / bs
    decreases |s|
  {
    if s == [] {
      DivUnique(bs - 1, bs, 0, bs - 1);
    } else if |s| <= bs {
      DivUnique(|s| + bs - 1, bs, 1, |s| - 1);
    } else {
      CountPieces(s[bs..], bs);
      var x := |s| - 1;
      assert x == x / bs * bs + x % bs;
      DivUnique(x + bs, bs, x / bs + 1, x % bs);
    }
  }

  /** Where the tail goes to a fragment, the rest is cut into full blocks, as many as both sides compute. */
  lemma CountFull(s: seq<Byte>, bs: nat)
    requires bs > 0
    ensures |s| / bs * bs == |s| - |s| % bs >= 0
    ensures |Pieces(s[..|s| - |s| % bs], bs)| == |s| / bs
  {
    var q, r := |s| / bs, |s| % bs;
    assert |s| == q * bs + r;
    CountPieces(s[..|s| - r], bs);
    DivUnique(q * bs + bs - 1, bs, q, bs - 1);
  }

  // ---------- Storing and reading ----------

  function Words(z: Codec, raw: bool, pieces: seq<seq<Byte>>): (r: seq<nat>)
    ensures |r| == |pieces|
  {
    if pieces == [] then [] else [Mangle(z, pieces[0], raw, DATA_BIT).word] + Words(z, raw, pieces[1..])
  }

  function Data(z: Codec, raw: bool, pieces: seq<seq<Byte>>): seq<Byte> {
    if pieces == [] then [] else Mangle(z, pieces[0], raw, DATA_BIT).bytes + Data(z, raw, pieces[1..])
  }

  /** What is stored of the blocks: each as it is or compressed, one behind the other, and the size words that say
      which; without compression just the text. */
  lemma {:induction false} DataStores(z: Codec, raw: bool, pieces: seq<seq<Byte>>, k: nat)
    requires k < |pieces| && forall i :: 0 <= i < |pieces| ==> |pieces[i]| < 0x100_0000
    ensures Words(z, raw, pieces)[k] == if raw || |z.compress(pieces[k])| >= |pieces[k]| then 0x100_0000 + |pieces[k]| else |z.compress(pieces[k])|
    ensures Data(z, raw, pieces) == Shorter(z, pieces[0], raw) + Data(z, raw, pieces[1..])
    ensures raw ==> Data(z, raw, pieces) == Concat(pieces)
  {
    MangleStores(z, pieces[0], raw, DATA_BIT);
    if k > 0 {
      DataStores(z, raw, pieces[1..], k - 1);
    } else if |pieces| > 1 {
      DataStores(z, raw, pieces[1..], 0);
    }
  }

  /** Reading n bytes; short where the disk ends. */
  function Slice(disk: seq<Byte>, start: nat, n: nat): seq<Byte> {
    if start + n <= |disk| then disk[start..start + n] else if start <= |disk| then disk[start..] else []
  }

  /** read_data_block. */
  function ReadData(z: Codec, disk: seq<Byte>, start: nat, word: nat): seq<Byte> {
    Unmangle(z, word, Slice(disk, start, StoredSize(word, DATA_BIT)), DATA_BIT)
  }

  lemma ReadDataBack(z: Codec, s: seq<Byte>, raw: bool, disk: seq<Byte>, start: nat)
    requires Faithful(z) && 0 < |s| < 0x100_0000
    requires var m := Mangle(z, s, raw, DATA_BIT); start + |m.bytes| <= |disk| && disk[start..start + |m.bytes|] == m.bytes
    ensures var m := Mangle(z, s, raw, DATA_BIT);
            ReadData(z, disk, start, m.word) == s && StoredSize(m.word, DATA_BIT) == |m.bytes| > 0
  {
    MangleRoundTrip(z, s, raw, DATA_BIT);
  }

  function ReadBlocks(z: Codec, disk: seq<Byte>, start: nat, words: seq<nat>): seq<Byte>
    decreases |words|
  {
    if words == [] then []
    else
      ReadData(z, disk, start, words[0]) + ReadBlocks(z, disk, start + StoredSize(words[0], DATA_BIT), words[1..])
  }

  /** No block comes back empty, which the reader takes for a failure. */
  predicate AllRead(z: Codec, disk: seq<Byte>, start: nat, words: seq<nat>)
    decreases |words|
  {
    words != [] ==>
      ReadData(z, disk, start, words[0]) != [] && AllRead(z, disk, start + StoredSize(words[0], DATA_BIT), words[1..])
  }

  ghost predicate Small(pieces: seq<seq<Byte>>) { forall k :: 0 <= k < |pieces| ==> 0 < |pieces[k]| < 0x100_0000 }

  lemma SmallTail(pieces: seq<seq<Byte>>)
    requires Small(pieces) && pieces != []
    ensures Small(pieces[1..])
  {
  }

  ghost predicate StoredAt(z: Codec, raw: bool, pieces: seq<seq<Byte>>, disk: seq<Byte>, start: nat) {
    var data := Data(z, raw, pieces);
    start + |data| <= |disk| && disk[start..start + |data|] == data
  }

  lemma StoredParts(z: Codec, raw: bool, pieces: seq<seq<Byte>>, disk: seq<Byte>, start: nat)
    requires StoredAt(z, raw, pieces, disk, start) && pieces != []
    ensures var m := Mangle(z, pieces[0], raw, DATA_BIT);
            && start + |m.bytes| <= |disk| && disk[start..start + |m.bytes|] == m.bytes
            && StoredAt(z, raw, pieces[1..], disk, start + |m.bytes|)
  {
    hide Mangle;
    SliceOfTwo(disk, start, Mangle(z, pieces[0], raw, DATA_BIT).bytes, Data(z, raw, pieces[1..]));
  }

  lemma ReadStep(z: Codec, disk: seq<Byte>, start: nat, w: seq<nat>, block: seq<Byte>, size: nat, rest: seq<Byte>)
    requires w != [] && ReadData(z, disk, start, w[0]) == block != [] && StoredSize(w[0], DATA_BIT) == size
    requires ReadBlocks(z, disk, start + size, w[1..]) == rest && AllRead(z, disk, start + size, w[1..])
    ensures ReadBlocks(z, disk, start, w) == block + rest && AllRead(z, disk, start, w)
  {
    hide ReadData, StoredSize;
  }

  /** The blocks stored at `start` decode to the text that was cut. */
  lemma {:induction false} BlocksRoundTrip(z: Codec, raw: bool, pieces: seq<seq<Byte>>, disk: seq<Byte>, start: nat)
    requires Faithful(z) && Small(pieces) && StoredAt(z, raw, pieces, disk, start)
    ensures ReadBlocks(z, disk, start, Words(z, raw, pieces)) == Concat(pieces)
    ensures AllRead(z, disk, start, Words(z, raw, pieces))
  {
    hide StoredAt, Mangle, ReadData, StoredSize;
    if pieces != [] {
      StoredParts(z, raw, pieces, disk, start);
      var m, w := Mangle(z, pieces[0], raw, DATA_BIT), Words(z, raw, pieces);
      ReadDataBack(z, pieces[0], raw, disk, start);
      SmallTail(pieces);
      BlocksRoundTrip(z, raw, pieces[1..], disk, start + |m.bytes|);
      assert w[0] == m.word && w[1..] == Words(z, raw, pieces[1..]);
      ReadStep(z, disk, start, w, pieces[0], |m.bytes|, Concat(pieces[1..]));
    }
  }

  lemma SliceOfTwo(disk: seq<Byte>, start: nat, a: seq<Byte>, b: seq<Byte>)
    requires start + |a + b| <= |disk| && disk[start..start + |a + b|] == a + b
    ensures disk[start..start + |a|] == a && disk[start + |a|..start + |a| + |b|] == b
  {
    var s := disk[start..start + |a + b|];
    assert disk[start..start + |a|] == s[..|a|];
    assert disk[start + |a|..start + |a| + |b|] == s[|a|..];
  }

  /** Stored bytes are read alike from a longer disk. */
  lemma {:induction false} ReadBlocksStable(z: Codec, disk: seq<Byte>, more: seq<Byte>, start: nat, words: seq<nat>)
    requires start + Total(words) <= |disk|
    ensures ReadBlocks(z, disk + more, start, words) == ReadBlocks(z, disk, start, words)
    decreases |words|
  {
    if words != [] {
      hide ReadData, StoredSize;
      ReadDataStays(z, disk, disk + more, start, words[0]);
      ReadBlocksStable(z, disk, more, start + StoredSize(words[0], DATA_BIT), words[1..]);
    }
  }

  lemma ReadDataStays(z: Codec, disk: seq<Byte>, longer: seq<Byte>, start: nat, word: nat)
    requires start + StoredSize(word, DATA_BIT) <= |disk| && disk <= longer
    ensures ReadData(z, longer, start, word) == ReadData(z, disk, start, word)
  {
    var size := StoredSize(word, DATA_BIT);
    hide Unmangle, StoredSize;
    assert longer[start..start + size] == disk[start..start + size];
  }

  function Total(words: seq<nat>): nat {
    if words == [] then 0 else StoredSize(words[0], DATA_BIT) + Total(words[1..])
  }

  lemma {:induction false} TotalOfWords(z: Codec, raw: bool, pieces: seq<seq<Byte>>)
    requires Faithful(z) && Small(pieces)
    ensures Total(Words(z, raw, pieces)) == |Data(z, raw, pieces)| >= |pieces|
  {
    if pieces != [] {
      MangleRoundTrip(z, pieces[0], raw, DATA_BIT);
      SmallTail(pieces);
      TotalOfWords(z, raw, pieces[1..]);
      assert Words(z, raw, pieces)[1..] == Words(z, raw, pieces[1..]);
    }
  }

  lemma {:induction false} FirstOfData(z: Codec, raw: bool, pieces: seq<seq<Byte>>, n: nat)
    requires n <= |pieces|
    ensures Words(z, raw, pieces)[..n] == Words(z, raw, pieces[..n])
    ensures Data(z, raw, pieces) == Data(z, raw, pieces[..n]) + Data(z, raw, pieces[n..])
  {
    if n == 0 {
      assert pieces[..0] == [] && pieces[0..] == pieces;
    } else {
      FirstOfData(z, raw, pieces[1..], n - 1);
      assert pieces[..n][1..] == pieces[1..][..n - 1] && pieces[1..][n - 1..] == pieces[n..];
    }
  }

  // ---------- Sharing ----------

  /** A file whose stored bytes equal those of an earlier one is given the start and the block list of
      that one, cut to its own number of blocks. It is read back exactly when the block lists agree. */
  lemma SharedBlocksExactly(z: Codec, raw: bool, bs: nat, first: seq<Byte>, second: seq<Byte>, disk: seq<Byte>, start: nat)
    requires Faithful(z) && 0 < bs < 0x100_0000
    requires var p, q := Pieces(first, bs), Pieces(second, bs);
             Data(z, raw, p) == Data(z, raw, q) && StoredAt(z, raw, p, disk, start)
    ensures var v, w := Words(z, raw, Pieces(first, bs)), Words(z, raw, Pieces(second, bs));
            (|w| <= |v| && ReadBlocks(z, disk, start, v[..|w|]) == second) <==> v == w
  {
    var p, q := Pieces(first, bs), Pieces(second, bs);
    var v, w := Words(z, raw, p), Words(z, raw, q);
    PiecesWellCut(first, bs);
    PiecesWellCut(second, bs);
    if v == w {
      assert v[..|w|] == w;
      BlocksRoundTrip(z, raw, q, disk, start);
    }
    if |w| <= |v| && ReadBlocks(z, disk, start, v[..|w|]) == second {
      SharedBlocksAgree(z, raw, bs, p, q, disk, start);
    }
  }

  lemma SharedBlocksAgree(z: Codec, raw: bool, bs: nat, p: seq<seq<Byte>>, q: seq<seq<Byte>>, disk: seq<Byte>, start: nat)
    requires Faithful(z) && 0 < bs < 0x100_0000 && WellCut(p, bs) && WellCut(q, bs) && |q| <= |p|
    requires Data(z, raw, p) == Data(z, raw, q)
    requires StoredAt(z, raw, p, disk, start)
    requires ReadBlocks(z, disk, start, Words(z, raw, p)[..|q|]) == Concat(q)
    ensures p == q
  {
    var front, rest := p[..|q|], p[|q|..];
    FrontRead(z, raw, p, |q|, disk, start);
    assert WellCut(front, bs);
    PiecesUnique(front, bs);
    PiecesUnique(q, bs);
    assert front == q;
    FirstOfData(z, raw, p, |q|);
    NothingMore(z, raw, rest, Data(z, raw, p), Data(z, raw, q));
    assert p == front + rest;
  }

  lemma NothingMore(z: Codec, raw: bool, rest: seq<seq<Byte>>, whole: seq<Byte>, front: seq<Byte>)
    requires Faithful(z) && Small(rest) && whole == front && whole == front + Data(z, raw, rest)
    ensures rest == []
  {
    TotalOfWords(z, raw, rest);
  }

  lemma FrontRead(z: Codec, raw: bool, p: seq<seq<Byte>>, n: nat, disk: seq<Byte>, start: nat)
    requires Faithful(z) && Small(p) && n <= |p|
    requires StoredAt(z, raw, p, disk, start)
    ensures ReadBlocks(z, disk, start, Words(z, raw, p)[..n]) == Concat(p[..n])
  {
    FirstOfData(z, raw, p, n);
    SliceOfTwo(disk, start, Data(z, raw, p[..n]), Data(z, raw, p[n..]));
    BlocksRoundTrip(z, raw, p[..n], disk, start);
  }
}
