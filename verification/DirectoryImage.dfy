/** Directories written into an image and listed again: from the entries handed to add_dir to what
    squashfs_openddir returns. */
module DirectoryImage {
  import opened Options
  import opened Compression
  import opened DirectoryFormat
  import opened DirectoryWriter
  import opened DirectoryTable
  import M = MetadataStream

  ghost predicate EntriesOk(entries: seq<Entry>) { forall i :: 0 <= i < |entries| ==> EntryOk(entries[i]) }

  function CutNames(entries: seq<Entry>): (r: seq<Entry>)
    requires EntriesOk(entries)
    ensures |r| == |entries| && forall i :: 0 <= i < |r| ==> r[i] == Truncated(entries[i])
  {
    seq(|entries|, i requires 0 <= i < |entries| => Truncated(entries[i]))
  }

  /** What memory holds where a header will be put later. */
  ghost predicate HolesOk(holes: nat -> seq<Byte>) { forall i: nat :: |holes(i)| == 9 }

  /** One directory, entry by entry. */
  method Build(entries: seq<Entry>, holes: nat -> seq<Byte>, startBlock: nat, inodeNumber: nat) returns (dir: Directory)
    requires EntriesOk(entries) && HolesOk(holes)
    ensures fresh(dir) && dir.Valid() && Listing(dir.runs) == CutNames(entries)
  {
    dir := new Directory(startBlock, inodeNumber);
    var i := 0;
    while i < |entries|
      invariant 0 <= i <= |entries| && fresh(dir) && dir.Valid() && Listing(dir.runs) == CutNames(entries)[..i]
    {
      CutNext(entries, i);
      assert EntryOk(entries[i]) && |holes(i)| == 9;
      hide *;
      dir.AddDir(entries[i], holes(i));
      i := i + 1;
    }
  }

  lemma CutNext(entries: seq<Entry>, i: nat)
    requires EntriesOk(entries) && i < |entries|
    ensures CutNames(entries)[..i + 1] == CutNames(entries)[..i] + [Truncated(entries[i])]
  {
  }

  // ---------- All directories ----------

  /** Where a directory lies in the stream, and what its inode says about it. */
  datatype Slot = Slot(at: nat, runs: seq<Run>, ref: M.Ref, size: nat)

  ghost predicate SlotOk(o: M.Options, stream: seq<Byte>, s: Slot, entries: seq<Entry>) {
    && EntriesOk(entries) && Faithful(o.codec) && RunsOk(s.runs) && LiesAt(stream, s.at, RunsBytes(s.runs))
    && s.ref == M.RefTo(o, stream, s.at) && s.size == |RunsBytes(s.runs)| && Listing(s.runs) == CutNames(entries)
  }

  /** A directory takes no room exactly when it has no entry. */
  lemma EmptyRuns(runs: seq<Run>)
    requires RunsOk(runs)
    ensures |RunsBytes(runs)| == 0 <==> Listing(runs) == []
  {
    if runs != [] {
      assert RunOk(Last(runs)) && |RunBytes(Last(runs))| >= 9;
      assert Last(runs).entries != [];
    }
  }

  lemma SlotStays(o: M.Options, stream: seq<Byte>, more: seq<Byte>, s: Slot, entries: seq<Entry>)
    requires SlotOk(o, stream, s, entries)
    ensures SlotOk(o, stream + more, s, entries) && s.at <= |stream|
  {
    LiesLonger(stream, more, s.at, RunsBytes(s.runs));
    M.RefStable(o, stream, more, s.at);
  }

  /** Nothing has been written from this directory on. */
  ghost predicate AtEnd(stream: seq<Byte>, slots: seq<Slot>, dirs: seq<seq<Entry>>, k: nat)
    requires k < |slots| <= |dirs|
  {
    slots[k].at == |stream| <==> forall j :: k <= j < |slots| ==> dirs[j] == []
  }

  ghost predicate Written(o: M.Options, stream: seq<Byte>, slots: seq<Slot>, dirs: seq<seq<Entry>>) {
    && |slots| <= |dirs|
    && forall k :: 0 <= k < |slots| ==> SlotOk(o, stream, slots[k], dirs[k]) && AtEnd(stream, slots, dirs, k)
  }

  lemma WrittenMore(o: M.Options, stream: seq<Byte>, slots: seq<Slot>, dirs: seq<seq<Entry>>, s: Slot)
    requires Written(o, stream, slots, dirs) && |slots| < |dirs| && RunsOk(s.runs)
    requires SlotOk(o, stream + RunsBytes(s.runs), s, dirs[|slots|]) && s.at == |stream|
    ensures Written(o, stream + RunsBytes(s.runs), slots + [s], dirs)
  {
    var bytes, all := RunsBytes(s.runs), slots + [s];
    EmptyRuns(s.runs);
    assert |bytes| == 0 <==> dirs[|slots|] == [];
    forall k | 0 <= k < |all| ensures SlotOk(o, stream + bytes, all[k], dirs[k]) && AtEnd(stream + bytes, all, dirs, k) {
      hide SlotOk, AtEnd;
      if k < |slots| {
        assert SlotOk(o, stream, slots[k], dirs[k]) && AtEnd(stream, slots, dirs, k);
        SlotStays(o, stream, bytes, slots[k], dirs[k]);
        EndMoves(stream, bytes, slots, dirs, k, s);
      } else {
        EndNew(stream, bytes, slots, dirs, s);
      }
    }
  }

  lemma EndNew(stream: seq<Byte>, bytes: seq<Byte>, slots: seq<Slot>, dirs: seq<seq<Entry>>, s: Slot)
    requires |slots| < |dirs| && s.at == |stream| && (|bytes| == 0 <==> dirs[|slots|] == [])
    ensures AtEnd(stream + bytes, slots + [s], dirs, |slots|)
  {
  }

  lemma EndMoves(stream: seq<Byte>, bytes: seq<Byte>, slots: seq<Slot>, dirs: seq<seq<Entry>>, k: nat, s: Slot)
    requires k < |slots| < |dirs| && AtEnd(stream, slots, dirs, k) && slots[k].at <= |stream|
    requires |bytes| == 0 <==> dirs[|slots|] == []
    ensures AtEnd(stream + bytes, slots + [s], dirs, k)
  {
  }

  /** Every directory is built and written, one behind the other. */
  method WriteAll(w: M.Writer, dirs: seq<seq<Entry>>, holes: nat -> seq<Byte>, startBlock: nat, inodeNumber: nat)
    returns (refs: seq<M.Ref>, sizes: seq<nat>, ghost slots: seq<Slot>)
    requires w.Valid() && w.stream == [] && |w.cache| < 8192 && HolesOk(holes)
    requires forall k :: 0 <= k < |dirs| ==> EntriesOk(dirs[k])
    modifies w
    ensures w.Valid() && |refs| == |sizes| == |slots| == |dirs| && Written(w.o, w.stream, slots, dirs)
    ensures slots != [] ==> slots[0].at == 0
    ensures Match(refs, sizes, slots)
  {
    assert Written(w.o, w.stream, [], dirs);
    hide *;
    refs, sizes, slots := [], [], [];
    while |refs| < |dirs|
      invariant w.Valid() && |w.cache| < 8192 && |refs| == |sizes| == |slots| <= |dirs| && Written(w.o, w.stream, slots, dirs)
      invariant if slots == [] then w.stream == [] else slots[0].at == 0
      invariant Match(refs, sizes, slots)
    {
      ghost var stream := w.stream;
      var ref, size;
      ghost var s;
      ref, size, s := WriteOne(w, dirs[|refs|], holes, startBlock, inodeNumber);
      WrittenMore(w.o, stream, slots, dirs, s);
      MatchMore(refs, sizes, slots, s);
      refs, sizes, slots := refs + [ref], sizes + [size], slots + [s];
    }
  }

  /** What goes into the inodes is what the slots say. */
  ghost predicate Match(refs: seq<M.Ref>, sizes: seq<nat>, slots: seq<Slot>) {
    |refs| == |sizes| == |slots| && forall k :: 0 <= k < |refs| ==> refs[k] == slots[k].ref && sizes[k] == slots[k].size
  }

  lemma MatchMore(refs: seq<M.Ref>, sizes: seq<nat>, slots: seq<Slot>, s: Slot)
    requires Match(refs, sizes, slots)
    ensures Match(refs + [s.ref], sizes + [s.size], slots + [s])
  {
  }

  method WriteOne(w: M.Writer, entries: seq<Entry>, holes: nat -> seq<Byte>, startBlock: nat, inodeNumber: nat)
    returns (ref: M.Ref, size: nat, ghost s: Slot)
    requires w.Valid() && |w.cache| < 8192 && HolesOk(holes) && EntriesOk(entries)
    modifies w
    ensures w.Valid() && |w.cache| < 8192 && RunsOk(s.runs) && w.stream == old(w.stream) + RunsBytes(s.runs)
    ensures SlotOk(w.o, w.stream, s, entries) && s.at == |old(w.stream)| && ref == s.ref && size == s.size
  {
    ghost var stream := w.stream;
    var dir := Build(entries, holes, startBlock, inodeNumber);
    ref, size := WriteDir(dir, w);
    s := Slot(|stream|, dir.runs, ref, size);
    LiesLast(stream, RunsBytes(s.runs));
  }

  // ---------- Listing them ----------

  /** Directory k and all behind it are empty. */
  ghost predicate Trailing(dirs: seq<seq<Entry>>, k: nat) { forall j :: k <= j < |dirs| ==> dirs[j] == [] }

  /** What opening directory k gives, in a table of this length: its entries in order, with names cut to 256
      bytes; nothing at all where it has no byte in the table and the table ends on a block boundary. */
  ghost predicate Listed(dirs: seq<seq<Entry>>, k: nat, length: nat, names: Option<seq<DirEnt>>) {
    && k < |dirs| && EntriesOk(dirs[k])
    && names == if Trailing(dirs, k) && length % 8192 == 0 then None else Some(KeptAll(CutNames(dirs[k])))
  }

  method List(hash: M.HashTable, table: seq<Byte>, tableStart: nat, ref: M.Ref, size: nat,
              ghost o: M.Options, ghost n: nat, ghost slots: seq<Slot>, ghost dirs: seq<seq<Entry>>, ghost k: nat)
    returns (names: Option<seq<DirEnt>>)
    requires hash.Valid() && Faithful(o.codec) && M.Covers(table, n) && M.Indexed(o, tableStart, table, hash.contents, n)
    requires k < |slots| == |dirs| && SlotOk(o, table, slots[k], dirs[k]) && ref == slots[k].ref && size == slots[k].size
    requires slots[k].at == |table| <==> Trailing(dirs, k)
    ensures Listed(dirs, k, |table|, names)
  {
    names := OpenDirectory(hash, table, tableStart, ref, size + 3, o, n, slots[k].at, slots[k].runs);
  }

  /** Any directories, written into an image and opened by the references that were handed out. */
  method WriteAndList(o: M.Options, dirs: seq<seq<Entry>>, holes: nat -> seq<Byte>, startBlock: nat, inodeNumber: nat,
                      front: seq<Byte>, back: seq<Byte>)
    returns (listings: seq<Option<seq<DirEnt>>>, ghost length: nat)
    requires Faithful(o.codec) && HolesOk(holes) && forall k :: 0 <= k < |dirs| ==> EntriesOk(dirs[k])
    ensures |listings| == |dirs| && forall k :: 0 <= k < |dirs| ==> Listed(dirs, k, length, listings[k])
    ensures dirs != [] && Trailing(dirs, 0) ==> length == 0
  {
    var w := new M.Writer(o);
    ghost var slots, n;
    var refs, sizes;
    refs, sizes, slots := WriteAll(w, dirs, holes, startBlock, inodeNumber);
    n := w.Finish();
    ghost var stream := w.stream;
    length := |stream|;
    var image := Image(front, w.table, back);
    if dirs != [] { SlotAt(o, stream, slots, dirs, 0); }
    hide *;
    var table, hash := LoadFrom(o, image, |front|, |w.table|, stream, n);
    listings := ListAll(hash, table, |front|, refs, sizes, o, n, slots, dirs);
  }

  function Image(front: seq<Byte>, table: seq<Byte>, back: seq<Byte>): (r: seq<Byte>)
    ensures LiesAt(r, |front|, table)
  {
    front + table + back
  }

  method LoadFrom(o: M.Options, image: seq<Byte>, start: nat, size: nat, ghost stream: seq<Byte>, ghost n: nat)
    returns (table: seq<Byte>, hash: M.HashTable)
    requires Faithful(o.codec) && M.Covers(stream, n) && LiesAt(image, start, M.Table(o, stream, n)) && size == |M.Table(o, stream, n)|
    ensures table == stream && fresh(hash) && hash.Valid() && M.Indexed(o, start, stream, hash.contents, n)
  {
    table, hash := M.LoadTable(o, image, start, start + size, stream, n);
  }

  method ListAll(hash: M.HashTable, table: seq<Byte>, tableStart: nat, refs: seq<M.Ref>, sizes: seq<nat>,
                 ghost o: M.Options, ghost n: nat, ghost slots: seq<Slot>, ghost dirs: seq<seq<Entry>>)
    returns (listings: seq<Option<seq<DirEnt>>>)
    requires hash.Valid() && Faithful(o.codec) && M.Covers(table, n) && M.Indexed(o, tableStart, table, hash.contents, n)
    requires Written(o, table, slots, dirs) && |refs| == |sizes| == |slots| == |dirs|
    requires Match(refs, sizes, slots)
    ensures |listings| == |dirs| && forall k :: 0 <= k < |dirs| ==> Listed(dirs, k, |table|, listings[k])
  {
    hide *;
    listings := [];
    while |listings| < |refs|
      invariant |listings| <= |refs| && hash.Valid()
      invariant forall k :: 0 <= k < |listings| ==> Listed(dirs, k, |table|, listings[k])
    {
      SlotAt(o, table, slots, dirs, |listings|);
      MatchAt(refs, sizes, slots, |listings|);
      var names := List(hash, table, tableStart, refs[|listings|], sizes[|listings|], o, n, slots, dirs, |listings|);
      listings := listings + [names];
    }
  }

  lemma MatchAt(refs: seq<M.Ref>, sizes: seq<nat>, slots: seq<Slot>, k: nat)
    requires Match(refs, sizes, slots) && k < |slots|
    ensures refs[k] == slots[k].ref && sizes[k] == slots[k].size
  {
  }

  lemma SlotAt(o: M.Options, stream: seq<Byte>, slots: seq<Slot>, dirs: seq<seq<Entry>>, k: nat)
    requires Written(o, stream, slots, dirs) && k < |slots| == |dirs|
    ensures SlotOk(o, stream, slots[k], dirs[k])
    ensures slots[k].at == |stream| <==> Trailing(dirs, k)
  {
    assert AtEnd(stream, slots, dirs, k);
  }

  /** An image of nothing but an empty root: its root cannot be opened. */
  method EmptyRoot(o: M.Options, holes: nat -> seq<Byte>, front: seq<Byte>, back: seq<Byte>) returns (root: Option<seq<DirEnt>>)
    requires Faithful(o.codec) && HolesOk(holes)
    ensures root == None
  {
    var dirs: seq<seq<Entry>> := [[]];
    assert EntriesOk(dirs[0]) && Trailing(dirs, 0);
    var listings, length := WriteAndList(o, dirs, holes, 0, 0, front, back);
    root := listings[0];
    assert Listed(dirs, 0, length, root);
  }
}
