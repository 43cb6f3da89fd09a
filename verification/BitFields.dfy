/** The swapping macros: how fields of any width are packed into the other byte order, bit by bit, and
    taken out again. Words and bytes are their bits, the most significant first. */
module BitFields {
  type Octet = b: seq<bool> | |b| == 8 witness [false, false, false, false, false, false, false, false]

  type Word = w: seq<bool> | |w| == 64 witness seq(64, _ => false)

  function Zeros(n: nat): (r: seq<bool>)
    ensures |r| == n && forall i :: 0 <= i < n ==> !r[i]
  {
    seq(n, _ => false)
  }

  // ---------- Numbers ----------

  /** The n low bits of v. */
  function Bits(v: nat, n: nat): (r: seq<bool>)
    ensures |r| == n
  {
    if n == 0 then [] else Bits(v / 2, n - 1) + [v % 2 == 1]
  }

  function Num(bits: seq<bool>): nat {
    if bits == [] then 0 else 2 * Num(bits[..|bits| - 1]) + (if bits[|bits| - 1] then 1 else 0)
  }

  /** What a field of n bits keeps of a value. */
  function Cut(v: nat, n: nat): nat { Num(Bits(v, n)) }

  function Pow2(n: nat): (r: nat)
    ensures r > 0
  {
    if n == 0 then 1 else 2 * Pow2(n - 1)
  }

  lemma {:induction false} NumOfBits(v: nat, n: nat)
    requires v < Pow2(n)
    ensures Num(Bits(v, n)) == v
  {
    if n > 0 {
      NumOfBits(v / 2, n - 1);
      assert Bits(v, n)[..n - 1] == Bits(v / 2, n - 1);
    }
  }

  lemma Halves(v: nat, m: nat)
    requires m > 0
    ensures v % (2 * m) == 2 * (v / 2 % m) + v % 2
  {
    var h := v / 2;
    var q, r := h / m, h % m;
    assert h == q * m + r;
    Twice(q, m);
    Remainder(v, 2 * m, q, 2 * r + v % 2);
  }

  lemma Remainder(v: nat, d: nat, q: nat, r: nat)
    requires d > 0 && v == q * d + r && r < d
    ensures v % d == r
  {
    var a := v / d;
    assert v == a * d + v % d;
    InOrder(a + 1, q, d);
    InOrder(q + 1, a, d);
  }

  lemma InOrder(a: nat, b: nat, d: nat)
    ensures a <= b ==> a * d <= b * d
  {
  }

  lemma Twice(a: nat, b: nat)
    ensures a * (2 * b) == 2 * (a * b)
  {
  }

  /** Cutting a value to n bits is taking it modulo 2^n. */
  lemma {:induction false} CutMod(v: nat, n: nat)
    ensures Cut(v, n) == v % Pow2(n)
  {
    if n > 0 {
      CutMod(v / 2, n - 1);
      assert Bits(v, n)[..n - 1] == Bits(v / 2, n - 1);
      Halves(v, Pow2(n - 1));
    }
  }

  lemma {:induction false} NumConcat(a: seq<bool>, b: seq<bool>)
    ensures Num(a + b) == Num(a) * Pow2(|b|) + Num(b)
    decreases |b|
  {
    if b == [] {
      assert a + b == a;
    } else {
      var n := |b| - 1;
      NumConcat(a, b[..n]);
      assert (a + b)[..|a + b| - 1] == a + b[..n] && (a + b)[|a + b| - 1] == b[n];
      Twice(Num(a), Pow2(n));
    }
  }

  /** A value of few bits has them at the end of the word, behind zeros. */
  lemma {:induction false} BitsOfSmall(v: nat, n: nat, m: nat)
    requires v < Pow2(n) && n <= m
    ensures Bits(v, m) == Zeros(m - n) + Bits(v, n)
    decreases m
  {
    if n == 0 {
      if m > 0 {
        BitsOfSmall(0, 0, m - 1);
        assert Zeros(m - 1) + [false] == Zeros(m);
      }
    } else {
      BitsOfSmall(v / 2, n - 1, m - 1);
      assert Zeros(m - n) + (Bits(v / 2, n - 1) + [v % 2 == 1]) == Zeros(m - n) + Bits(v / 2, n - 1) + [v % 2 == 1];
    }
  }

  /** The low bits of a value are at the end of its word, however large it is. */
  lemma {:induction false} BitsTail(v: nat, n: nat, m: nat)
    requires n <= m
    ensures Bits(v, m)[m - n..] == Bits(v, n)
    decreases m
  {
    if n > 0 {
      BitsTail(v / 2, n - 1, m - 1);
      assert Bits(v, m)[m - n..] == Bits(v / 2, m - 1)[m - n..] + [v % 2 == 1];
    }
  }

  // ---------- Words ----------

  function ShiftLeft(w: Word, k: nat): Word
    requires k <= 64
  {
    w[k..] + Zeros(k)
  }

  function ShiftRight(w: Word, k: nat): Word
    requires k <= 64
  {
    Zeros(k) + w[..64 - k]
  }

  function Or(a: Octet, b: Octet): (r: Octet)
    ensures forall i :: 0 <= i < 8 ==> r[i] == (a[i] || b[i])
  {
    seq(8, i requires 0 <= i < 8 => a[i] || b[i])
  }

  /** Bit i of a buffer. */
  function BitAt(p: seq<Octet>, i: nat): bool
    requires i < 8 * |p|
  {
    p[i / 8][i % 8]
  }

  /** A field lies inside the buffer and, from the start of its first byte, inside a word. */
  predicate Fits(size: nat, pos: nat, tbits: nat) { pos + tbits <= 8 * size && pos % 8 + tbits <= 64 }

  /** The value in its place in the word. */
  function Placed(value: nat, tbits: nat, bPos: nat): Word
    requires tbits + bPos <= 64
  {
    ShiftLeft(Bits(value, 64), 64 - tbits - bPos)
  }

  lemma PlacedBit(value: nat, tbits: nat, bPos: nat, x: nat)
    requires tbits + bPos <= 64 && (value < Pow2(tbits) || bPos == 0) && x < 64
    ensures Placed(value, tbits, bPos)[x] == (bPos <= x < bPos + tbits && Bits(value, tbits)[x - bPos])
  {
    if bPos == 0 { BitsTail(value, tbits, 64); } else { BitsOfSmall(value, tbits, 64); }
    var shift := 64 - tbits - bPos;
    if x < tbits + bPos { assert Placed(value, tbits, bPos)[x] == Bits(value, 64)[shift + x]; }
  }

  function Piece(w: Word, k: nat): Octet
    requires k < 8
  {
    w[8 * k..8 * k + 8]
  }

  /** k bytes of the word have been OR-ed in from byte q on. */
  ghost predicate Ored(before: seq<Octet>, after: seq<Octet>, w: Word, q: nat, k: nat) {
    && |after| == |before| && q + k <= |before| && k <= 8
    && forall j :: 0 <= j < |before| ==> after[j] == if q <= j < q + k then Or(before[j], Piece(w, j - q)) else before[j]
  }

  /** A value that is too wide for its field, as a negative one is, does no harm at the start of a byte. */
  predicate Sits(value: nat, pos: nat, tbits: nat) { value < Pow2(tbits) || pos % 8 == 0 }

  /** The macro that writes: the value is moved to its place in a word and the bytes of the word are OR-ed in. */
  method SwapOut(value: nat, p: array<Octet>, pos: nat, tbits: nat)
    requires Fits(p.Length, pos, tbits) && Sits(value, pos, tbits)
    modifies p
    ensures Packed(old(p[..]), p[..], value, pos, tbits)
  {
    var bPos := pos % 8;
    var val := Placed(value, tbits, bPos);
    ghost var before := p[..];
    ghost var q := pos / 8;
    var bits, k := 0, 0;
    while bits < tbits + bPos
      invariant bits == 8 * k && k >= 0 && (k > 0 ==> 8 * (k - 1) < tbits + bPos)
      invariant Ored(before, p[..], val, q, k)
    {
      p[pos / 8 + k] := Or(p[pos / 8 + k], Piece(val, k));
      k := k + 1;
      bits := bits + 8;
    }
    OredPacks(before, p[..], value, pos, tbits, k);
  }

  /** The bits of the field are OR-ed in, and no others change. */
  ghost predicate Packed(before: seq<Octet>, after: seq<Octet>, value: nat, pos: nat, tbits: nat) {
    && |after| == |before|
    && forall i :: 0 <= i < 8 * |after| ==>
         BitAt(after, i) == (BitAt(before, i) || (pos <= i < pos + tbits && Bits(value, tbits)[i - pos]))
  }

  lemma OredPacks(before: seq<Octet>, after: seq<Octet>, value: nat, pos: nat, tbits: nat, k: nat)
    requires Fits(|before|, pos, tbits) && Sits(value, pos, tbits)
    requires Ored(before, after, Placed(value, tbits, pos % 8), pos / 8, k) && tbits + pos % 8 <= 8 * k
    ensures Packed(before, after, value, pos, tbits)
  {
    var q, bPos := pos / 8, pos % 8;
    var val := Placed(value, tbits, bPos);
    forall i | 0 <= i < 8 * |after|
      ensures BitAt(after, i) == (BitAt(before, i) || (pos <= i < pos + tbits && Bits(value, tbits)[i - pos]))
    {
      OredBit(before, after, val, q, k, i);
      if 8 * q <= i < 8 * q + 8 * k { PlacedBit(value, tbits, bPos, i - 8 * q); }
    }
  }

  lemma OredBit(before: seq<Octet>, after: seq<Octet>, w: Word, q: nat, k: nat, i: nat)
    requires Ored(before, after, w, q, k) && i < 8 * |before|
    ensures BitAt(after, i) == (BitAt(before, i) || (8 * q <= i < 8 * q + 8 * k && w[i - 8 * q]))
  {
    var j, r := i / 8, i % 8;
    ByteBit(before, j, r);
    ByteBit(after, j, r);
    if q <= j < q + k {
      assert Piece(w, j - q)[r] == w[8 * (j - q) + r];
    }
  }

  /** The macro that reads: the bytes make up a word, which is moved down and cut to the width of the field. */
  method SwapIn(p: seq<Octet>, pos: nat, tbits: nat) returns (value: nat)
    requires Fits(|p|, pos, tbits)
    ensures value == Num(FieldBits(p, pos, tbits))
  {
    var bPos := pos % 8;
    var val: seq<bool> := [];
    var bits, k := 0, 0;
    while bits < tbits + bPos
      invariant bits == 8 * k == |val| && k >= 0 && (k > 0 ==> 8 * (k - 1) < tbits + bPos) && pos / 8 + k <= |p|
      invariant forall x :: 0 <= x < |val| ==> val[x] == BitAt(p, 8 * (pos / 8) + x)
    {
      TakeByte(p, pos / 8, k, val);
      val := val + p[pos / 8 + k];
      k := k + 1;
      bits := bits + 8;
    }
    WordIsField(p, pos, tbits, val);
    var word := val + Zeros(64 - |val|);
    var down := ShiftRight(word, 64 - tbits - bPos);
    value := Num(down[64 - tbits..]);
  }

  lemma WordIsField(p: seq<Octet>, pos: nat, tbits: nat, val: seq<bool>)
    requires Fits(|p|, pos, tbits) && tbits + pos % 8 <= |val| <= 64 && 8 * (pos / 8) + |val| <= 8 * |p|
    requires forall x :: 0 <= x < |val| ==> val[x] == BitAt(p, 8 * (pos / 8) + x)
    ensures ShiftRight(val + Zeros(64 - |val|), 64 - tbits - pos % 8)[64 - tbits..] == FieldBits(p, pos, tbits)
  {
    var bPos := pos % 8;
    var word := val + Zeros(64 - |val|);
    var down := ShiftRight(word, 64 - tbits - bPos);
    forall x | 0 <= x < tbits ensures down[64 - tbits..][x] == FieldBits(p, pos, tbits)[x] {
      assert pos == 8 * (pos / 8) + bPos;
      assert down[64 - tbits + x] == word[bPos + x] == val[bPos + x];
    }
  }

  function FieldBits(p: seq<Octet>, pos: nat, tbits: nat): (r: seq<bool>)
    requires pos + tbits <= 8 * |p|
    ensures |r| == tbits && forall x :: 0 <= x < tbits ==> r[x] == BitAt(p, pos + x)
  {
    seq(tbits, x requires 0 <= x < tbits => BitAt(p, pos + x))
  }

  lemma TakeByte(p: seq<Octet>, q: nat, k: nat, val: seq<bool>)
    requires |val| == 8 * k && q + k < |p| && forall x :: 0 <= x < |val| ==> val[x] == BitAt(p, 8 * q + x)
    ensures var more := val + p[q + k]; forall x :: 0 <= x < |more| ==> more[x] == BitAt(p, 8 * q + x)
  {
    var more := val + p[q + k];
    forall x | 0 <= x < |more| ensures more[x] == BitAt(p, 8 * q + x) {
      if x >= 8 * k { ByteBit(p, q + k, x - 8 * k); }
    }
  }

  lemma ByteBit(p: seq<Octet>, j: nat, r: nat)
    requires j < |p| && r < 8
    ensures BitAt(p, 8 * j + r) == p[j][r]
  {
    assert (8 * j + r) / 8 == j && (8 * j + r) % 8 == r;
  }

  // ---------- Whole records ----------

  datatype Field = Field(pos: nat, tbits: nat)

  ghost predicate Apart(fields: seq<Field>) {
    forall i, j :: 0 <= i < j < |fields| ==>
      fields[i].pos + fields[i].tbits <= fields[j].pos || fields[j].pos + fields[j].tbits <= fields[i].pos
  }

  ghost predicate AllFit(fields: seq<Field>, values: seq<nat>, size: nat) {
    && |values| == |fields|
    && forall i :: 0 <= i < |fields| ==> Fits(size, fields[i].pos, fields[i].tbits) && Sits(values[i], fields[i].pos, fields[i].tbits)
  }

  predicate Holds(p: seq<Octet>, f: Field, value: nat) {
    f.pos + f.tbits <= 8 * |p| && FieldBits(p, f.pos, f.tbits) == Bits(value, f.tbits)
  }

  /** The first n fields hold their values, and what lies outside them is zero. */
  ghost predicate Holding(p: seq<Octet>, fields: seq<Field>, values: seq<nat>, n: nat) {
    && n <= |fields| == |values|
    && (forall k :: 0 <= k < n ==> Holds(p, fields[k], values[k]))
    && forall i :: 0 <= i < 8 * |p| && BitAt(p, i) ==> exists k :: 0 <= k < n && Covers(fields[k], i)
  }

  predicate Covers(f: Field, i: nat) { f.pos <= i < f.pos + f.tbits }

  lemma HoldingStep(before: seq<Octet>, after: seq<Octet>, fields: seq<Field>, values: seq<nat>, n: nat)
    requires Apart(fields) && AllFit(fields, values, |before|) && n < |fields|
    requires Holding(before, fields, values, n) && Packed(before, after, values[n], fields[n].pos, fields[n].tbits)
    ensures Holding(after, fields, values, n + 1)
  {
    var f := fields[n];
    forall k | 0 <= k < n ensures Holds(after, fields[k], values[k]) {
      var g := fields[k];
      assert Holds(before, g, values[k]);
      forall i | g.pos <= i < g.pos + g.tbits ensures BitAt(after, i) == BitAt(before, i) {
      }
      assert FieldBits(after, g.pos, g.tbits) == FieldBits(before, g.pos, g.tbits);
    }
    forall i | f.pos <= i < f.pos + f.tbits ensures BitAt(after, i) == Bits(values[n], f.tbits)[i - f.pos] {
      forall k | 0 <= k < n ensures !Covers(fields[k], i) {
      }
    }
    assert FieldBits(after, f.pos, f.tbits) == Bits(values[n], f.tbits);
    forall i | 0 <= i < 8 * |after| && BitAt(after, i) ensures exists k :: 0 <= k < n + 1 && Covers(fields[k], i) {
      if BitAt(before, i) {
        var k :| 0 <= k < n && Covers(fields[k], i);
      } else {
        assert Covers(f, i);
      }
    }
  }

  /** A record is cleared, every field is swapped out, and every field that is swapped in again has its value. */
  method PackRecord(fields: seq<Field>, values: seq<nat>, p: array<Octet>)
    requires Apart(fields) && AllFit(fields, values, p.Length)
    modifies p
    ensures Holding(p[..], fields, values, |fields|)
  {
    Clear(p);
    var k := 0;
    while k < |fields|
      invariant 0 <= k <= |fields| && Holding(p[..], fields, values, k)
    {
      ghost var before := p[..];
      SwapOut(values[k], p, fields[k].pos, fields[k].tbits);
      HoldingStep(before, p[..], fields, values, k);
      k := k + 1;
    }
  }

  method Clear(p: array<Octet>)
    modifies p
    ensures forall i :: 0 <= i < 8 * p.Length ==> !BitAt(p[..], i)
  {
    var j := 0;
    while j < p.Length
      invariant 0 <= j <= p.Length && forall c :: 0 <= c < j ==> p[c] == Zeros(8)
    {
      p[j] := Zeros(8);
      j := j + 1;
    }
  }

  method UnpackRecord(fields: seq<Field>, p: seq<Octet>, ghost values: seq<nat>) returns (r: seq<nat>)
    requires AllFit(fields, values, |p|) && Holding(p, fields, values, |fields|)
    ensures |r| == |fields| && forall i :: 0 <= i < |fields| ==> r[i] == Cut(values[i], fields[i].tbits)
    ensures forall i :: 0 <= i < |fields| && values[i] < Pow2(fields[i].tbits) ==> r[i] == values[i]
  {
    r := [];
    var k := 0;
    while k < |fields|
      invariant 0 <= k == |r| <= |fields|
      invariant forall i :: 0 <= i < k ==> r[i] == Cut(values[i], fields[i].tbits)
      invariant forall i :: 0 <= i < k && values[i] < Pow2(fields[i].tbits) ==> r[i] == values[i]
    {
      var v := TakeField(p, fields[k], values[k]);
      r := r + [v];
      k := k + 1;
    }
  }

  method TakeField(p: seq<Octet>, f: Field, ghost value: nat) returns (v: nat)
    requires Fits(|p|, f.pos, f.tbits) && Holds(p, f, value)
    ensures v == Cut(value, f.tbits) && (value < Pow2(f.tbits) ==> v == value)
  {
    v := SwapIn(p, f.pos, f.tbits);
    if value < Pow2(f.tbits) { NumOfBits(value, f.tbits); }
  }

  // ---------- The records of the file system ----------

  const BASE_INODE := [Field(0, 4), Field(4, 12), Field(16, 8), Field(24, 8), Field(32, 32), Field(64, 32)]
  const IPC_INODE := BASE_INODE + [Field(96, 32)]
  const DEV_INODE := BASE_INODE + [Field(96, 32), Field(128, 16)]
  const SYMLINK_INODE := BASE_INODE + [Field(96, 32), Field(128, 16)]
  const REG_INODE := BASE_INODE + [Field(96, 64), Field(160, 32), Field(192, 32), Field(224, 32)]
  const LREG_INODE := BASE_INODE + [Field(96, 32), Field(128, 64), Field(192, 32), Field(224, 32), Field(256, 64)]
  const DIR_INODE := BASE_INODE + [Field(96, 32), Field(128, 19), Field(147, 13), Field(160, 32), Field(192, 32)]
  const LDIR_INODE :=
    BASE_INODE + [Field(96, 32), Field(128, 27), Field(155, 13), Field(168, 32), Field(200, 16), Field(216, 32)]
  const DIR_INDEX := [Field(0, 32), Field(32, 32), Field(64, 8)]
  const DIR_HEADER := [Field(0, 8), Field(8, 32), Field(40, 32)]
  const DIR_ENTRY := [Field(0, 13), Field(13, 3), Field(16, 8), Field(24, 16)]
  const FRAGMENT_ENTRY := [Field(0, 64), Field(64, 32)]
  const SUPER_BLOCK :=
    [Field(0, 32), Field(32, 32), Field(64, 32), Field(96, 32), Field(128, 32), Field(160, 32), Field(192, 32),
     Field(224, 16), Field(240, 16), Field(256, 16), Field(272, 16), Field(288, 8), Field(296, 8), Field(304, 8),
     Field(312, 32), Field(344, 64), Field(408, 32), Field(440, 32), Field(472, 32), Field(504, 64), Field(568, 64),
     Field(632, 64), Field(696, 64), Field(760, 64), Field(824, 64), Field(888, 64)]

  /** Every field begins where the one before it ends, and can be moved as one word. */
  predicate Tight(fields: seq<Field>, start: nat, end: nat)
    decreases |fields|
  {
    if fields == [] then start == end
    else fields[0].pos == start && start % 8 + fields[0].tbits <= 64 && Tight(fields[1..], start + fields[0].tbits, end)
  }

  lemma {:induction false} TightAt(fields: seq<Field>, start: nat, end: nat, i: nat)
    requires Tight(fields, start, end) && i < |fields|
    ensures start <= fields[i].pos && fields[i].pos + fields[i].tbits <= end && fields[i].pos % 8 + fields[i].tbits <= 64
    ensures forall j :: i < j < |fields| ==> fields[i].pos + fields[i].tbits <= fields[j].pos
    decreases |fields|
  {
    TightEnd(fields[1..], start + fields[0].tbits, end);
    if i > 0 {
      TightAt(fields[1..], start + fields[0].tbits, end, i - 1);
      forall j | i < j < |fields| ensures fields[i].pos + fields[i].tbits <= fields[j].pos {
        assert fields[1..][i - 1] == fields[i] && fields[1..][j - 1] == fields[j];
      }
    } else {
      forall j | 0 < j < |fields| ensures fields[0].pos + fields[0].tbits <= fields[j].pos {
        TightAt(fields[1..], start + fields[0].tbits, end, j - 1);
        assert fields[1..][j - 1] == fields[j];
      }
    }
  }

  lemma {:induction false} TightEnd(fields: seq<Field>, start: nat, end: nat)
    requires Tight(fields, start, end)
    ensures start <= end
    decreases |fields|
  {
    if fields != [] { TightEnd(fields[1..], start + fields[0].tbits, end); }
  }

  /** A record without gaps can be packed and unpacked. */
  lemma TightRecord(fields: seq<Field>, end: nat, size: nat)
    requires Tight(fields, 0, end) && end <= 8 * size
    ensures Apart(fields) && forall i :: 0 <= i < |fields| ==> Fits(size, fields[i].pos, fields[i].tbits)
  {
    forall i | 0 <= i < |fields|
      ensures Fits(size, fields[i].pos, fields[i].tbits)
      ensures forall j :: i < j < |fields| ==> fields[i].pos + fields[i].tbits <= fields[j].pos
    {
      TightAt(fields, 0, end, i);
    }
  }

  /** Field by field, as the tables give them. */
  lemma {:induction false} Gapless(fields: seq<Field>, start: nat)
    requires fields != [] && fields[0].pos == start
    requires forall i :: 0 <= i < |fields| ==> fields[i].pos % 8 + fields[i].tbits <= 64
    requires forall i :: 0 < i < |fields| ==> fields[i - 1].pos + fields[i - 1].tbits == fields[i].pos
    ensures Tight(fields, start, fields[|fields| - 1].pos + fields[|fields| - 1].tbits)
    decreases |fields|
  {
    var rest := fields[1..];
    if rest != [] {
      forall i | 0 < i < |rest| ensures rest[i - 1].pos + rest[i - 1].tbits == rest[i].pos {
        assert fields[i].pos + fields[i].tbits == fields[i + 1].pos;
      }
      Gapless(rest, rest[0].pos);
    }
  }

  /** The records have the sizes of their packed structures and no gaps; a fragment entry is padded to 16 bytes. */
  lemma RecordsTight()
    ensures Tight(BASE_INODE, 0, 8 * 12)
    ensures Tight(DIR_INDEX, 0, 8 * 9) && Tight(DIR_HEADER, 0, 8 * 9) && Tight(DIR_ENTRY, 0, 8 * 5)
    ensures Tight(FRAGMENT_ENTRY, 0, 8 * 12)
  {
    hide Tight;
    Gapless(BASE_INODE, 0);
    Gapless(DIR_INDEX, 0);
    Gapless(DIR_HEADER, 0);
    Gapless(DIR_ENTRY, 0);
    Gapless(FRAGMENT_ENTRY, 0);
  }

  lemma SuperBlockTight()
    ensures Tight(SUPER_BLOCK, 0, 8 * 119)
  {
    hide Tight;
    Gapless(SUPER_BLOCK, 0);
  }

  lemma InodeRecordsTight()
    ensures Tight(IPC_INODE, 0, 8 * 16) && Tight(DEV_INODE, 0, 8 * 18) && Tight(SYMLINK_INODE, 0, 8 * 18)
    ensures Tight(REG_INODE, 0, 8 * 32) && Tight(LREG_INODE, 0, 8 * 40)
    ensures Tight(DIR_INODE, 0, 8 * 28) && Tight(LDIR_INODE, 0, 8 * 31)
  {
    hide Tight;
    Gapless(IPC_INODE, 0);
    Gapless(DEV_INODE, 0);
    Gapless(SYMLINK_INODE, 0);
    FileInodesTight();
    DirInodesTight();
  }

  lemma FileInodesTight()
    ensures Tight(REG_INODE, 0, 8 * 32) && Tight(LREG_INODE, 0, 8 * 40)
  {
    hide Tight;
    Gapless(REG_INODE, 0);
    Gapless(LREG_INODE, 0);
  }

  lemma DirInodesTight()
    ensures Tight(DIR_INODE, 0, 8 * 28) && Tight(LDIR_INODE, 0, 8 * 31)
  {
    hide Tight;
    Gapless(DIR_INODE, 0);
    Gapless(LDIR_INODE, 0);
  }

  /** The number that these bytes are, high byte first. */
  function BigEndian(p: seq<Octet>): nat {
    if p == [] then 0 else 256 * BigEndian(p[..|p| - 1]) + Num(p[|p| - 1])
  }

  /** A field made of whole bytes is their number. */
  lemma {:induction false} WholeBytes(p: seq<Octet>, j: nat, n: nat)
    requires j + n <= |p|
    ensures BigEndian(p[j..j + n]) == Num(FieldBits(p, 8 * j, 8 * n))
    decreases n
  {
    if n > 0 {
      var last := p[j + n - 1];
      WholeBytes(p, j, n - 1);
      LastByte(p, j, n);
      var front, most := p[j..j + n - 1], FieldBits(p, 8 * j, 8 * (n - 1));
      assert p[j..j + n] == front + [last];
      hide *;
      ByteMore(front, last);
      ByteMoreBits(most, last);
    }
  }

  lemma ByteMore(p: seq<Octet>, b: Octet)
    ensures BigEndian(p + [b]) == 256 * BigEndian(p) + Num(b)
  {
    assert (p + [b])[..|p|] == p;
  }

  lemma ByteMoreBits(bits: seq<bool>, b: Octet)
    ensures Num(bits + b) == 256 * Num(bits) + Num(b)
  {
    Doubled(8, 1, 8);
    NumConcat(bits, b);
  }

  lemma LastByte(p: seq<Octet>, j: nat, n: nat)
    requires j + n <= |p| && n > 0
    ensures FieldBits(p, 8 * j, 8 * n) == FieldBits(p, 8 * j, 8 * (n - 1)) + p[j + n - 1]
  {
    var all, most, last := FieldBits(p, 8 * j, 8 * n), FieldBits(p, 8 * j, 8 * (n - 1)), p[j + n - 1];
    forall x | 0 <= x < 8 * n ensures all[x] == (most + last)[x] {
      if x >= 8 * (n - 1) { ByteBit(p, j + n - 1, x - 8 * (n - 1)); }
    }
  }

  lemma PowersOfTwo()
    ensures Pow2(3) == 8 && Pow2(4) == 16 && Pow2(8) == 256 && Pow2(12) == 4096 && Pow2(13) == 8192 && Pow2(16) == 65536
    ensures Pow2(19) == 0x8_0000 && Pow2(27) == 0x800_0000 && Pow2(32) == 0x1_0000_0000 && Pow2(64) == 0x1_0000_0000_0000_0000
  {
    Doubled(3, 1, 3);
    Doubled(4, 8, 1);
    Doubled(8, 16, 4);
    Doubled(12, 256, 4);
    Doubled(13, 4096, 1);
    Doubled(16, 8192, 3);
    Doubled(19, 65536, 3);
    Doubled(27, 0x8_0000, 8);
    Doubled(32, 0x800_0000, 5);
    Doubled(40, 0x1_0000_0000, 8);
    Doubled(48, 0x100_0000_0000, 8);
    Doubled(56, 0x1_0000_0000_0000, 8);
    Doubled(64, 0x100_0000_0000_0000, 8);
  }

  lemma Doubled(n: nat, v: nat, k: nat)
    requires k <= n && k <= 8 && Pow2(n - k) == v
    ensures Pow2(n) == v * (match k case 0 => 1 case 1 => 2 case 2 => 4 case 3 => 8 case 4 => 16 case 5 => 32 case 6 => 64 case 7 => 128 case _ => 256)
  {
    if k > 0 { Doubled(n - 1, v, k - 1); }
  }

  // ---------- Every record there and back ----------

  datatype Format =
    | SuperBlock | BaseInode | IpcInode | DevInode | SymlinkInode | RegInode | LregInode | DirInode | LdirInode
    | DirIndex | DirHeader | DirEntry | FragmentEntry

  function FieldsOf(f: Format): seq<Field> {
    match f
    case SuperBlock => SUPER_BLOCK
    case BaseInode => BASE_INODE
    case IpcInode => IPC_INODE
    case DevInode => DEV_INODE
    case SymlinkInode => SYMLINK_INODE
    case RegInode => REG_INODE
    case LregInode => LREG_INODE
    case DirInode => DIR_INODE
    case LdirInode => LDIR_INODE
    case DirIndex => DIR_INDEX
    case DirHeader => DIR_HEADER
    case DirEntry => DIR_ENTRY
    case FragmentEntry => FRAGMENT_ENTRY
  }

  /** The size of the structure in bytes. */
  function SizeOf(f: Format): nat {
    match f
    case SuperBlock => 119
    case BaseInode => 12
    case IpcInode => 16
    case DevInode => 18
    case SymlinkInode => 18
    case RegInode => 32
    case LregInode => 40
    case DirInode => 28
    case LdirInode => 31
    case DirIndex => 9
    case DirHeader => 9
    case DirEntry => 5
    case FragmentEntry => 16
  }

  lemma FormatTight(f: Format)
    ensures Tight(FieldsOf(f), 0, if f.FragmentEntry? then 96 else 8 * SizeOf(f))
  {
    SuperBlockTight();
    RecordsTight();
    InodeRecordsTight();
    hide Tight;
  }

  lemma FormatFits(f: Format)
    ensures Apart(FieldsOf(f))
    ensures forall i :: 0 <= i < |FieldsOf(f)| ==> Fits(SizeOf(f), FieldsOf(f)[i].pos, FieldsOf(f)[i].tbits)
  {
    FormatTight(f);
    TightRecord(FieldsOf(f), if f.FragmentEntry? then 96 else 8 * SizeOf(f), SizeOf(f));
  }

  /** For each field of a structure the first number that it cannot hold. */
  function Limits(f: Format): seq<nat> {
    var base := [16, 4096, 256, 256, 0x1_0000_0000, 0x1_0000_0000];
    match f
    case SuperBlock =>
      [0x1_0000_0000, 0x1_0000_0000, 0x1_0000_0000, 0x1_0000_0000, 0x1_0000_0000, 0x1_0000_0000, 0x1_0000_0000,
       65536, 65536, 65536, 65536, 256, 256, 256, 0x1_0000_0000, 0x1_0000_0000_0000_0000,
       0x1_0000_0000, 0x1_0000_0000, 0x1_0000_0000,
       0x1_0000_0000_0000_0000, 0x1_0000_0000_0000_0000, 0x1_0000_0000_0000_0000, 0x1_0000_0000_0000_0000,
       0x1_0000_0000_0000_0000, 0x1_0000_0000_0000_0000, 0x1_0000_0000_0000_0000]
    case BaseInode => base
    case IpcInode => base + [0x1_0000_0000]
    case DevInode => base + [0x1_0000_0000, 65536]
    case SymlinkInode => base + [0x1_0000_0000, 65536]
    case RegInode => base + [0x1_0000_0000_0000_0000, 0x1_0000_0000, 0x1_0000_0000, 0x1_0000_0000]
    case LregInode => base + [0x1_0000_0000, 0x1_0000_0000_0000_0000, 0x1_0000_0000, 0x1_0000_0000, 0x1_0000_0000_0000_0000]
    case DirInode => base + [0x1_0000_0000, 0x8_0000, 8192, 0x1_0000_0000, 0x1_0000_0000]
    case LdirInode => base + [0x1_0000_0000, 0x800_0000, 8192, 0x1_0000_0000, 65536, 0x1_0000_0000]
    case DirIndex => [0x1_0000_0000, 0x1_0000_0000, 256]
    case DirHeader => [256, 0x1_0000_0000, 0x1_0000_0000]
    case DirEntry => [8192, 8, 256, 65536]
    case FragmentEntry => [0x1_0000_0000_0000_0000, 0x1_0000_0000]
  }

  lemma LimitsFit(f: Format)
    ensures |Limits(f)| == |FieldsOf(f)| && forall i :: 0 <= i < |FieldsOf(f)| ==> Limits(f)[i] == Pow2(FieldsOf(f)[i].tbits)
  {
    if f.RegInode? || f.LregInode? || f.DirInode? || f.LdirInode? { InodeLimitsFit(f); } else { OtherLimitsFit(f); }
  }

  lemma InodeLimitsFit(f: Format)
    requires f.RegInode? || f.LregInode? || f.DirInode? || f.LdirInode?
    ensures |Limits(f)| == |FieldsOf(f)| && forall i :: 0 <= i < |FieldsOf(f)| ==> Limits(f)[i] == Pow2(FieldsOf(f)[i].tbits)
  {
    PowersOfTwo();
    hide Pow2;
  }

  lemma OtherLimitsFit(f: Format)
    requires !(f.RegInode? || f.LregInode? || f.DirInode? || f.LdirInode?)
    ensures |Limits(f)| == |FieldsOf(f)| && forall i :: 0 <= i < |FieldsOf(f)| ==> Limits(f)[i] == Pow2(FieldsOf(f)[i].tbits)
  {
    PowersOfTwo();
    hide Pow2;
  }

  /** A record of any format, given by the values of its fields, of which none overflows inside a byte: packed
      for a host of the other byte order and read there, each field has its value, cut to its width. */
  method ThereAndBack(f: Format, values: seq<nat>) returns (packed: seq<Octet>, r: seq<nat>)
    requires |values| == |FieldsOf(f)|
    requires forall i :: 0 <= i < |values| ==> Sits(values[i], FieldsOf(f)[i].pos, FieldsOf(f)[i].tbits)
    ensures |r| == |values| && forall i :: 0 <= i < |values| ==> r[i] == Cut(values[i], FieldsOf(f)[i].tbits)
    ensures |Limits(f)| == |values| && forall i :: 0 <= i < |values| ==> Limits(f)[i] > 0 && r[i] == values[i] % Limits(f)[i]
    ensures |packed| == SizeOf(f) && forall i :: 0 <= i < |values| ==> Holds(packed, FieldsOf(f)[i], values[i])
  {
    FormatFits(f);
    LimitsFit(f);
    forall i | 0 <= i < |values| ensures Cut(values[i], FieldsOf(f)[i].tbits) == values[i] % Limits(f)[i] {
      CutMod(values[i], FieldsOf(f)[i].tbits);
    }
    hide FieldsOf, SizeOf, Limits, Cut;
    var p := new Octet[SizeOf(f)](_ => Zeros(8));
    PackRecord(FieldsOf(f), values, p);
    packed := p[..];
    r := UnpackRecord(FieldsOf(f), packed, values);
  }
}
