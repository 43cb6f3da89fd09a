/** The persistent inode maps: a forward map from union inode numbers to lower inodes, and for every branch
    a reverse map from lower inode numbers to union ones. Both are files that grow where they are written. */
module PersistentInodes {
  const FIRST_VALID_INODE := 3

  datatype Error = Fine | EIO | ENOSPC | EINVAL

  /** An entry of the forward map: the number of the lower file system and the inode there. */
  datatype Entry = Entry(fsnum: nat, inode: nat)

  /** Writing at position i of a file; what lies between its old end and i reads as `zero`. */
  function Put<T>(s: seq<T>, i: nat, x: T, zero: T): (r: seq<T>)
    ensures |r| == if i < |s| then |s| else i + 1
    ensures forall j :: 0 <= j < |r| ==> r[j] == if j == i then x else if j < |s| then s[j] else zero
  {
    if i < |s| then s[i := x] else s + seq(i - |s|, _ => zero) + [x]
  }

  /** Whether the two writes of __write_uin get through. */
  datatype Disk = Disk(forward: bool, reverse: bool)

  predicate Held(table: seq<nat>, h: nat, u: nat) { h < |table| && table[h] == u }

  class InodeMap {
    const bnum: seq<nat>
    var forward: seq<Entry>
    var reverse: seq<seq<nat>>
    var nextAvail: nat
    ghost var given: set<nat>

    /** A reverse map reads as zero behind its end. */
    function Rev(b: nat, h: nat): nat
      reads this
      requires b < |reverse|
    {
      if h < |reverse[b]| then reverse[b][h] else 0
    }

    /** The forward entry of u leads to a lower inode whose reverse entry is u. */
    ghost predicate Inverse(u: nat)
      reads this
    {
      && u < |forward| && |reverse| == |bnum|
      && exists b :: 0 <= b < |bnum| && bnum[b] == forward[u].fsnum && Rev(b, forward[u].inode) == u
    }

    ghost predicate Valid()
      reads this
    {
      && |reverse| == |bnum| && (forall a, b :: 0 <= a < b < |bnum| ==> bnum[a] != bnum[b])
      && nextAvail >= FIRST_VALID_INODE
      && (forall u :: u in given ==> FIRST_VALID_INODE <= u < nextAvail && Inverse(u))
      && (forall b, h: nat :: 0 <= b < |reverse| && Rev(b, h) != 0 ==> Rev(b, h) in given)
    }

    /** The maps as they are found when the union is mounted. `known` are the numbers given out before. */
    constructor (bnum: seq<nat>, forward: seq<Entry>, reverse: seq<seq<nat>>, ghost known: set<nat>)
      requires |reverse| == |bnum| && forall a, b :: 0 <= a < b < |bnum| ==> bnum[a] != bnum[b]
      requires forall u :: u in known ==> FIRST_VALID_INODE <= u < |forward|
      requires forall u :: u in known ==>
                 exists b :: 0 <= b < |bnum| && bnum[b] == forward[u].fsnum && Held(reverse[b], forward[u].inode, u)
      requires forall b, h :: 0 <= b < |reverse| && 0 <= h < |reverse[b]| && reverse[b][h] != 0 ==> reverse[b][h] in known
      ensures Valid() && given == known && this.bnum == bnum && this.forward == forward && this.reverse == reverse
      ensures nextAvail == if |forward| < 3 then 3 else |forward|
    {
      this.bnum, this.forward, this.reverse := bnum, forward, reverse;
      nextAvail := if |forward| < FIRST_VALID_INODE then FIRST_VALID_INODE else |forward|;
      given := known;
      new;
      forall u | u in given ensures Inverse(u) {
        var b :| 0 <= b < |bnum| && bnum[b] == forward[u].fsnum
          && Held(reverse[b], forward[u].inode, u);
        assert Rev(b, forward[u].inode) == u;
      }
    }

    /** __read_uin. */
    method ReadEntry(b: nat, h: nat) returns (ino: nat)
      requires b < |reverse|
      ensures ino == Rev(b, h)
    {
      if h + 1 > |reverse[b]| { return 0; }
      ino := reverse[b][h];
    }

    /** __write_uin. */
    method WriteEntry(ino: nat, b: nat, h: nat, disk: Disk) returns (err: Error)
      requires b < |reverse| == |bnum|
      modifies this`forward, this`reverse
      ensures err == if ino < 3 then ENOSPC else if disk.forward && disk.reverse then Fine else EIO
      ensures forward == if ino >= 3 && disk.forward
                         then Put(old(forward), ino, Entry(bnum[b], h), Entry(0, 0)) else old(forward)
      ensures reverse == if err == Fine then old(reverse)[b := Put(old(reverse)[b], h, ino, 0)] else old(reverse)
    {
      if ino < FIRST_VALID_INODE { return ENOSPC; }
      if !disk.forward { return EIO; }
      forward := Put(forward, ino, Entry(bnum[b], h), Entry(0, 0));
      if !disk.reverse { return EIO; }
      reverse := reverse[b := Put(reverse[b], h, ino, 0)];
      err := Fine;
    }

    /** read_uin: the number on record, or with O_CREAT a new one that nothing has had before. */
    method ReadUin(b: nat, h: nat, create: bool, disk: Disk) returns (err: Error, uino: nat)
      requires Valid() && b < |reverse|
      modifies this
      ensures Valid()
      ensures err == if old(Rev(b, h)) != 0 || (create && disk.forward && disk.reverse) then Fine else EIO
      ensures err == Fine ==> uino == Rev(b, h) >= 3 && uino == if old(Rev(b, h)) != 0 then old(Rev(b, h)) else old(nextAvail)
      ensures forward == if old(Rev(b, h)) == 0 && create && disk.forward
                         then Put(old(forward), old(nextAvail), Entry(bnum[b], h), Entry(0, 0)) else old(forward)
      ensures forall c, g: nat :: 0 <= c < |reverse| && (c != b || g != h || err != Fine || old(Rev(b, h)) != 0) ==> Rev(c, g) == old(Rev(c, g))
      ensures if err == Fine && old(Rev(b, h)) == 0
              then && given == old(given) + {uino} && nextAvail == uino + 1
                   && uino < |forward| && forward[uino] == Entry(bnum[b], h)
                   && uino !in old(given) && forall c, g: nat :: 0 <= c < |reverse| ==> old(Rev(c, g)) != uino
              else given == old(given) && nextAvail == old(nextAvail)
    {
      uino := ReadEntry(b, h);
      err := Fine;
      if uino != 0 { return; }
      if !create { return EIO, 0; }
      uino := nextAvail;
      nextAvail := nextAvail + 1;
      err := WriteEntry(uino, b, h, disk);
      if err != Fine {
        nextAvail := nextAvail - 1;
      } else {
        given := given + {uino};
      }
      assert forall c, g: nat :: 0 <= c < |reverse| ==>
        Rev(c, g) == if err == Fine && c == b && g == h then uino else old(Rev(c, g));
      forall u | u in old(given) ensures Inverse(u) {
        assert old(Inverse(u));
        var c :| 0 <= c < |bnum| && bnum[c] == old(forward)[u].fsnum && old(Rev(c, forward[u].inode)) == u;
        assert Rev(c, forward[u].inode) == u;
      }
    }

    /** get_lin: a number that has been given out leads to a lower inode that has this number on record. */
    method GetLin(ino: nat) returns (err: Error, entry: Entry)
      requires Valid()
      ensures err == (if ino < |forward| then Fine else EINVAL) && (err == Fine ==> entry == forward[ino])
      ensures ino in given ==>
                err == Fine && exists b :: 0 <= b < |bnum| && bnum[b] == entry.fsnum && Rev(b, entry.inode) == ino
    {
      assert ino in given ==> Inverse(ino);
      if ino >= |forward| { return EINVAL, Entry(0, 0); }
      return Fine, forward[ino];
    }

    /** Another number is on record for the lower inode and its own forward entry leads there. */
    ghost predicate Displaces(ino: nat, b: nat, h: nat)
      reads this
      requires b < |reverse| == |bnum|
    {
      var v := Rev(b, h);
      v != 0 && v != ino && v in given && v < |forward| && forward[v] == Entry(bnum[b], h)
    }

    /** write_uin, by which a copied-up object keeps its number. The maps stay inverse exactly when nothing
        gets written, or both entries do and the number whose place is taken, if there is one, leads
        elsewhere, or the forward entry alone does and the reverse entry is right already. */
    method WriteUin(ino: nat, b: nat, h: nat, disk: Disk) returns (err: Error)
      requires Valid() && b < |reverse| && ino in given
      modifies this`forward, this`reverse
      ensures err == if disk.forward && disk.reverse then Fine else EIO
      ensures |reverse| == |old(reverse)| && ino < |forward|
      ensures Valid() <==> !disk.forward || if disk.reverse then !old(Displaces(ino, b, h)) else old(Rev(b, h)) == ino
      ensures forward == if disk.forward then Put(old(forward), ino, Entry(bnum[b], h), Entry(0, 0)) else old(forward)
      ensures forall c, g: nat :: 0 <= c < |reverse| ==>
                Rev(c, g) == if err == Fine && c == b && g == h then ino else old(Rev(c, g))
    {
      assert old(Inverse(ino));
      err := WriteEntry(ino, b, h, disk);
      assert forall c, g: nat :: 0 <= c < |reverse| ==>
        Rev(c, g) == if err == Fine && c == b && g == h then ino else old(Rev(c, g));
      if disk.forward {
        if !disk.reverse && old(Rev(b, h)) != ino {
          assert forward[ino] == Entry(bnum[b], h) && !Inverse(ino);
        } else if disk.reverse && old(Displaces(ino, b, h)) {
          ghost var v := old(Rev(b, h));
          assert forward[v] == Entry(bnum[b], h) && !Inverse(v);
        } else {
          assert bnum[b] == forward[ino].fsnum && Rev(b, forward[ino].inode) == ino;
          forall u | u in given ensures Inverse(u) {
            if u != ino {
              assert old(Inverse(u));
              var c :| 0 <= c < |bnum| && bnum[c] == old(forward)[u].fsnum && old(Rev(c, forward[u].inode)) == u;
              assert forward[u] == old(forward)[u];
              assert Rev(c, forward[u].inode) == u;
            }
          }
        }
      } else {
        forall u | u in given ensures Inverse(u) { assert old(Inverse(u)); }
      }
    }
  }

  /** Two inputs on which write_uin breaks the maps: number 3 is written for lower inode 6, which has number 4
      on record; and it is written for lower inode 7 while the write to the reverse map fails. */
  method WriteUinBreaks() returns (taken: InodeMap, half: InodeMap)
    ensures fresh(taken) && fresh(half) && !taken.Valid() && !half.Valid()
  {
    var forward, reverse := [Entry(0, 0), Entry(0, 0), Entry(0, 0), Entry(1, 5), Entry(1, 6)], [[0, 0, 0, 0, 0, 3, 4]];
    taken := Mounted34(forward, reverse);
    assert taken.Rev(0, 6) == 4;
    var err := taken.WriteUin(3, 0, 6, Disk(true, true));
    half := Mounted34(forward, reverse);
    assert half.Rev(0, 7) == 0;
    err := half.WriteUin(3, 0, 7, Disk(true, false));
  }

  /** The maps of a union with one branch in which the numbers 3 and 4 have been given out. */
  method Mounted34(forward: seq<Entry>, reverse: seq<seq<nat>>) returns (maps: InodeMap)
    requires forward == [Entry(0, 0), Entry(0, 0), Entry(0, 0), Entry(1, 5), Entry(1, 6)] && reverse == [[0, 0, 0, 0, 0, 3, 4]]
    ensures fresh(maps) && maps.Valid() && maps.given == {3, 4} && maps.bnum == [1]
    ensures maps.forward == forward && maps.reverse == reverse
  {
    assert [1][0] == 1 && Held(reverse[0], 5, 3) && Held(reverse[0], 6, 4);
    maps := new InodeMap([1], forward, reverse, {3, 4});
  }
}
