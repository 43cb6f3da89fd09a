/** The 16-bit BSD checksum by which mksquashfs groups the files it has stored. */
module Checksums {
  import opened Compression

  const FILE_MAX_SIZE := 65536

  /** One byte: a rotation of the old value to the right, and an addition modulo 2^16. */
  function Step(c: nat, b: Byte): (r: nat)
    ensures r < 65536
  {
    ((if c % 2 == 1 then c / 2 + 0x8000 else c / 2) + b as int) % 65536
  }

  /** Taking the byte off again and rotating to the left gives the old value back. */
  lemma StepBack(c: nat, b: Byte)
    requires c < 65536
    ensures var v := (Step(c, b) + 65536 - b) % 65536; 2 * v % 65536 + 2 * v / 65536 == c
  {
    var v := if c % 2 == 1 then c / 2 + 0x8000 else c / 2;
    assert (Step(c, b) + 65536 - b) % 65536 == v;
  }

  function Roll(c: nat, s: seq<Byte>): nat
    decreases |s|
  {
    if s == [] then c else Roll(Step(c, s[0]), s[1..])
  }

  lemma {:induction false} RollConcat(c: nat, a: seq<Byte>, b: seq<Byte>)
    ensures Roll(c, a + b) == Roll(Roll(c, a), b)
    decreases |a|
  {
    if a == [] {
      assert a + b == b;
    } else {
      assert (a + b)[1..] == a[1..] + b;
      RollConcat(Step(c, a[0]), a[1..], b);
    }
  }

  lemma {:induction false} RollSmall(c: nat, s: seq<Byte>)
    requires c < 65536
    ensures Roll(c, s) < 65536
    decreases |s|
  {
    if s != [] { RollSmall(Step(c, s[0]), s[1..]); }
  }

  function Checksum(s: seq<Byte>): (r: nat)
    ensures r < 65536
  {
    RollSmall(0, s);
    Roll(0, s)
  }

  /** The inner loop of get_checksum, over one piece of the data. */
  method RollPiece(c: nat, s: seq<Byte>) returns (r: nat)
    ensures r == Roll(c, s)
  {
    r := c;
    var i := 0;
    while i < |s|
      invariant 0 <= i <= |s| && Roll(r, s[i..]) == Roll(c, s)
    {
      assert s[i..][1..] == s[i + 1..];
      r := Step(r, s[i]);
      i := i + 1;
    }
  }

  /** get_checksum: the data comes in pieces, and how it is cut makes no difference. */
  method GetChecksum(s: seq<Byte>) returns (c: nat)
    ensures c == Checksum(s)
  {
    c := 0;
    var l := |s|;
    while l > 0
      invariant 0 <= l <= |s| && c == Roll(0, s[..|s| - l])
    {
      var bytes := if l > FILE_MAX_SIZE then FILE_MAX_SIZE else l;
      var at := |s| - l;
      RollConcat(0, s[..at], s[at..at + bytes]);
      assert s[..at + bytes] == s[..at] + s[at..at + bytes];
      c := RollPiece(c, s[at..at + bytes]);
      l := l - bytes;
    }
    assert s[..|s|] == s;
  }
}
