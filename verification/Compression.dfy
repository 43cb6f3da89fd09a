/** How one block of bytes is stored: compressed when that is shorter, as it is otherwise, with a bit
    of the size word telling which. */
module Compression {
  type Byte = b: int | 0 <= b < 256

  /** zlib, as a pair of functions of which only the round trip is known. */
  datatype Codec = Codec(compress: seq<Byte> -> seq<Byte>, uncompress: seq<Byte> -> seq<Byte>)

  ghost predicate Faithful(z: Codec) {
    forall s: seq<Byte> :: z.uncompress(z.compress(s)) == s && |z.compress(s)| > 0
  }

  const METADATA_BIT := 0x8000
  const DATA_BIT := 0x100_0000

  datatype Stored = Stored(word: nat, bytes: seq<Byte>)

  /** `raw` asks for no compression at all; `bit` is METADATA_BIT or DATA_BIT. */
  function Mangle(z: Codec, s: seq<Byte>, raw: bool, bit: nat): Stored {
    var c := z.compress(s);
    if raw || |c| >= |s| then Stored(|s| + bit, s) else Stored(|c|, c)
  }

  /** The size macros read a zero size as the value of the bit itself. */
  function StoredSize(word: nat, bit: nat): nat
    requires bit > 0
  {
    if word % bit != 0 then word % bit else bit
  }

  predicate IsCompressed(word: nat, bit: nat)
    requires bit > 0
  {
    word / bit % 2 == 0
  }

  function Unmangle(z: Codec, word: nat, bytes: seq<Byte>, bit: nat): seq<Byte>
    requires bit > 0
  {
    if IsCompressed(word, bit) then z.uncompress(bytes) else bytes
  }

  /** The size word gives back the stored length, and the stored bytes give back the block. */
  lemma MangleRoundTrip(z: Codec, s: seq<Byte>, raw: bool, bit: nat)
    requires Faithful(z) && 0 < |s| < bit
    ensures var m := Mangle(z, s, raw, bit);
            && StoredSize(m.word, bit) == |m.bytes| && 0 < |m.bytes| <= |s| && m.word < 2 * bit
            && Unmangle(z, m.word, m.bytes, bit) == s
  {
    var m := Mangle(z, s, raw, bit);
    var c := z.compress(s);
    assert z.uncompress(c) == s && |c| > 0;
    if raw || |c| >= |s| {
      assert m.word == bit + |s|;
      WordOf(|s|, bit);
    } else {
      PlainWord(|c|, bit);
    }
  }

  lemma PlainWord(n: nat, bit: nat)
    requires n < bit
    ensures n % bit == n && n / bit == 0
  {
  }

  /** What is to be stored of a block: the block itself when no compression is asked for, or when compressing
      does not make it shorter. */
  function Shorter(z: Codec, s: seq<Byte>, raw: bool): seq<Byte> {
    if raw || |s| <= |z.compress(s)| then s else z.compress(s)
  }

  /** When a block is compressed: the size word says that it is not exactly when that is asked for or would not make
      it shorter. Then the bytes are the block itself and the word is its length with the bit set; otherwise they are
      what it is compressed to, and the word is their length alone. */
  lemma MangleStores(z: Codec, s: seq<Byte>, raw: bool, bit: nat)
    requires |s| < bit
    ensures var m := Mangle(z, s, raw, bit);
            && (m.word >= bit <==> raw || |z.compress(s)| >= |s|)
            && (IsCompressed(m.word, bit) <==> m.word < bit)
            && m.bytes == Shorter(z, s, raw)
            && (m.word >= bit ==> m.word == bit + |s| && m.bytes == s)
            && (m.word < bit ==> m.word == |m.bytes| < |s| && m.bytes == z.compress(s))
  {
    WordOf(|s|, bit);
    var c := |z.compress(s)|;
    if c < |s| { PlainWord(c, bit); }
  }

  lemma WordOf(n: nat, bit: nat)
    requires n < bit
    ensures (bit + n) % bit == n && (bit + n) / bit == 1
  {
  }

  /** An empty block breaks the size word: its stored length reads back as the bit's own value. */
  lemma EmptyBlockMisread(z: Codec, raw: bool, bit: nat)
    requires bit > 0
    ensures StoredSize(Mangle(z, [], raw, bit).word, bit) == bit && Mangle(z, [], raw, bit).bytes == []
  {
  }
}
