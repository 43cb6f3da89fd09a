/** The superblock of a union mount. Its methods shift the branch table, rewrite the putmaps and
    count references in place, and are proved to carry out the steps of BranchSteps and BranchRuns. */
module BranchManager {
  import opened Options
  import opened BranchState
  import S = BranchSteps
  import R = BranchRuns

  class SuperBlock {
    var branches: seq<Branch>
    var generation: int
    var firstPutmap: int
    var lastPutmap: int
    var putmaps: seq<Option<Putmap>>
    var files: seq<FileSlot>

    ghost function Abs(): State
      reads this
    {
      State(branches, generation, firstPutmap, lastPutmap, putmaps, files)
    }

    ghost predicate Valid()
      reads this
    {
      Inv(Abs())
    }

    constructor Mount(roots: seq<Root>, perms: seq<bv32>)
      requires |roots| == |perms| >= 1
      requires forall i, j :: 0 <= i < j < |roots| ==> roots[i] != roots[j]
      ensures Valid() && R.Mounted(Abs()) && Prompt(Abs())
      ensures Roots(branches) == roots && forall i :: 0 <= i < |roots| ==> branches[i].perms == perms[i]
    {
      branches := seq(|roots|, i requires 0 <= i < |roots| => Branch(roots[i], 0, perms[i]));
      generation := 1;
      firstPutmap, lastPutmap, putmaps := 0, 0, [];
      files := [];
    }

    // ---------- Putmaps ----------

    method NewPutmap()
      requires ListShape(Abs())
      modifies this
      ensures Abs() == S.NewPutmap(old(Abs()))
    {
      if firstPutmap == 0 {
        firstPutmap, lastPutmap, putmaps := 1, 1, [None];
      } else {
        DropDeadPrefix();
      }
      var slots, count := CountCurrent();
      putmaps := putmaps[lastPutmap - firstPutmap := Some(Putmap(slots, count))];
    }

    /** Retires the current generation. */
    method Retire()
      requires Valid()
      modifies this
      ensures Valid() && Abs() == S.Advance(old(Abs()))
      ensures putmaps != [] && lastPutmap - firstPutmap == |putmaps| - 1
      ensures putmaps[|putmaps| - 1].Some? && putmaps[|putmaps| - 1].value.slots == S.Identity(|branches|)
    {
      S.AdvanceKeeps(Abs());
      NewPutmap();
      generation := generation + 1;
    }

    /** Moves the putmaps from the first live one on to a new list. The list is made long enough for
        the entry that is stored last. */
    method DropDeadPrefix()
      requires firstPutmap >= 1 && |putmaps| == lastPutmap - firstPutmap + 1
      modifies this
      ensures var dead := S.DeadPrefix(old(putmaps));
              Abs() == old(Abs()).(firstPutmap := old(firstPutmap) + dead, lastPutmap := old(lastPutmap) + 1,
                                   putmaps := old(putmaps)[dead..] + [None])
    {
      ghost var s := Abs();
      var newFirst := firstPutmap;
      while newFirst <= lastPutmap && putmaps[newFirst - firstPutmap].None?
        invariant Abs() == s && firstPutmap <= newFirst <= lastPutmap + 1
        invariant forall k :: 0 <= k < newFirst - firstPutmap ==> putmaps[k].None?
      {
        newFirst := newFirst + 1;
      }
      ghost var dead := newFirst - firstPutmap;
      var newList := new Option<Putmap>[2 + lastPutmap - newFirst](_ => None);
      for i := newFirst to lastPutmap + 1
        invariant Abs() == s && newList[newList.Length - 1] == None
        invariant forall k :: 0 <= k < i - newFirst ==> newList[k] == putmaps[k + dead]
      {
        newList[i - newFirst] := putmaps[i - firstPutmap];
      }
      putmaps := newList[..];
      firstPutmap := newFirst;
      lastPutmap := lastPutmap + 1;
      assert putmaps == s.putmaps[dead..] + [None];
    }

    /** The references of the current generation: all open lower files less those counted in putmaps. */
    method CountCurrent() returns (slots: seq<int>, count: int)
      requires |putmaps| == lastPutmap - firstPutmap + 1 >= 1
      ensures slots == S.Identity(|branches|)
      ensures count == TotalCount(branches) - LiveCount(putmaps[..|putmaps| - 1])
    {
      count := 0;
      slots := [];
      for i := 0 to |branches|
        invariant count == TotalCount(branches[..i])
        invariant slots == S.Identity(i)
      {
        assert branches[..i + 1][..i] == branches[..i];
        count := count + branches[i].count;
        slots := slots + [i];
      }
      assert branches[..|branches|] == branches;
      for i := firstPutmap to lastPutmap
        invariant count == TotalCount(branches) - LiveCount(putmaps[..i - firstPutmap])
      {
        assert putmaps[..i + 1 - firstPutmap][..i - firstPutmap] == putmaps[..i - firstPutmap];
        if putmaps[i - firstPutmap].Some? {
          count := count - putmaps[i - firstPutmap].value.count;
        }
      }
    }

    method FixPutmaps(beyond: int -> int)
      requires putmaps != [] && putmaps[|putmaps| - 1].Some? && lastPutmap - firstPutmap == |putmaps| - 1
      modifies this
      ensures Abs() == old(Abs()).(putmaps := S.FixPutmaps(old(putmaps), beyond))
    {
      var cur := putmaps[lastPutmap - firstPutmap].value;
      ghost var was := putmaps;
      for gen := 0 to lastPutmap - firstPutmap
        invariant |putmaps| == |was| && Abs() == old(Abs()).(putmaps := putmaps)
        invariant forall k :: 0 <= k < gen ==> putmaps[k] == S.FixPutmaps(was, beyond)[k]
        invariant forall k :: gen <= k < |was| ==> putmaps[k] == was[k]
      {
        if putmaps[gen].Some? {
          ghost var now := Abs();
          var slots := putmaps[gen].value.slots;
          ghost var older := slots;
          for i := 0 to |slots|
            invariant Abs() == now && |slots| == |older|
            invariant forall j :: 0 <= j < i ==> slots[j] == S.Follow(cur.slots, older[j], beyond)
            invariant forall j :: i <= j < |slots| ==> slots[j] == older[j]
          {
            slots := slots[i := S.Follow(cur.slots, slots[i], beyond)];
          }
          assert slots == S.Compose(older, cur.slots, beyond);
          putmaps := putmaps[gen := Some(putmaps[gen].value.(slots := slots))];
        }
      }
      assert putmaps == S.FixPutmaps(was, beyond);
    }

    // ---------- The administrator's operations ----------

    method IncGen() returns (gen: int)
      requires Valid()
      modifies this
      ensures Valid() && Abs() == S.Advance(old(Abs())) && gen == generation == old(generation) + 1
    {
      Retire();
      gen := generation;
    }

    method AddBranch(k: int, root: Root, perms: bv32, overlap: (Root, Root) -> bool, beyond: int -> int) returns (outcome: S.Outcome)
      requires Valid() && forall r :: overlap(r, r)
      modifies this
      ensures Valid() && outcome == S.AddOutcome(old(Abs()), k, root, perms, overlap)
      ensures Abs() == S.AddBranch(old(Abs()), k, root, perms, overlap, beyond)
      ensures outcome == S.Success ==> S.OneAdded(old(branches), branches, k, Branch(root, 0, perms))
    {
      ghost var s := Abs();
      S.AddBranchAdds(s, k, root, perms, overlap, beyond);
      S.AddBranchKeeps(s, k, root, perms, overlap, beyond);
      if !S.GoodPerms(perms) { return S.InvalidArgument; }
      if |branches| - 1 > S.FD_SETSIZE { return S.TooBig; }
      for i := 0 to |branches|
        invariant forall j :: 0 <= j < i ==> !overlap(branches[j].root, root)
      {
        if overlap(branches[i].root, root) { return S.InvalidArgument; }
      }
      if k < 0 || k > |branches| { return S.InvalidArgument; }
      Retire();
      OpenGap(k, Branch(root, 0, perms));
      FixPutmaps(beyond);
      outcome := S.Success;
    }

    /** Copies the branches into a table with room at k and notes every shift in the newest putmap. */
    method OpenGap(k: int, b: Branch)
      requires 0 <= k <= |branches| && putmaps != [] && lastPutmap - firstPutmap == |putmaps| - 1
      requires putmaps[|putmaps| - 1].Some? && putmaps[|putmaps| - 1].value.slots == S.Identity(|branches|)
      modifies this
      ensures Abs() == old(Abs()).(branches := S.Inserted(old(branches), k, b),
                                   putmaps := S.SetNewest(old(putmaps), S.InsertMap(|old(branches)|, k)))
    {
      ghost var a := Abs();
      var objects := |branches| + 1;
      var newData := new Branch[objects](_ => Branch(0, 0, 0));
      for i := 0 to k
        invariant Abs() == a
        invariant forall j :: 0 <= j < i ==> newData[j] == branches[j]
      {
        newData[i] := branches[i];
      }
      var last := lastPutmap - firstPutmap;
      ghost var count := putmaps[last].value.count;
      for i := |branches| downto k
        invariant Abs() == a.(putmaps := putmaps) && |putmaps| == |a.putmaps|
        invariant forall j :: 0 <= j < last ==> putmaps[j] == a.putmaps[j]
        invariant putmaps[last].Some? && putmaps[last].value.count == count && |putmaps[last].value.slots| == |branches|
        invariant forall j :: 0 <= j < |branches| ==> putmaps[last].value.slots[j] == (if j < i then j else j + 1)
        invariant forall j :: 0 <= j < k ==> newData[j] == branches[j]
        invariant forall j :: i <= j < |branches| ==> newData[j + 1] == branches[j]
      {
        var j := i + 1;
        newData[j] := branches[i];
        var newest := putmaps[last].value;
        putmaps := putmaps[last := Some(newest.(slots := newest.slots[i := j]))];
      }
      newData[k] := b;
      assert putmaps[last].value.slots == S.InsertMap(|branches|, k);
      assert putmaps == S.SetNewest(a.putmaps, S.InsertMap(|branches|, k));
      TakeTable(newData, S.Inserted(branches, k, b));
    }

    method TakeTable(newData: array<Branch>, ghost table: seq<Branch>)
      requires |table| == newData.Length && forall j :: 0 <= j < |table| ==> newData[j] == table[j]
      modifies this
      ensures Abs() == old(Abs()).(branches := table)
    {
      branches := newData[..];
      assert branches == table;
    }

    method DelBranch(k: int, beyond: int -> int) returns (outcome: S.Outcome)
      requires Valid()
      modifies this
      ensures Valid() && outcome == S.DelOutcome(old(Abs()), k)
      ensures Abs() == S.DelBranch(old(Abs()), k, beyond)
      ensures outcome == S.Success ==> S.OneGone(old(branches), branches, k)
    {
      ghost var s := Abs();
      S.DelBranchRemoves(s, k, beyond);
      S.DelBranchKeeps(s, k, beyond);
      if |branches| == 1 { return S.Busy; }
      if k < 0 || k > |branches| - 1 { return S.InvalidArgument; }
      if branches[k].count != 0 { return S.Busy; }
      Retire();
      CloseGap(k);
      FixPutmaps(beyond);
      if putmaps[lastPutmap - firstPutmap].value.count == 0 {
        putmaps := putmaps[lastPutmap - firstPutmap := None];
      }
      outcome := S.Success;
    }

    /** Shifts the branches right of k one place left and notes every shift in the newest putmap. */
    method CloseGap(k: int)
      requires 0 <= k < |branches| && putmaps != [] && lastPutmap - firstPutmap == |putmaps| - 1
      requires putmaps[|putmaps| - 1].Some? && putmaps[|putmaps| - 1].value.slots == S.Identity(|branches|)
      modifies this
      ensures Abs() == old(Abs()).(branches := S.Removed(old(branches), k),
                                   putmaps := S.SetNewest(old(putmaps), S.RemoveMap(|old(branches)|, k)))
    {
      ghost var a := Abs();
      var last := lastPutmap - firstPutmap;
      ghost var count := putmaps[last].value.count;
      for i := k to |branches| - 1
        invariant Abs() == a.(putmaps := putmaps, branches := branches)
        invariant |branches| == |a.branches| && |putmaps| == |a.putmaps|
        invariant forall j :: 0 <= j < last ==> putmaps[j] == a.putmaps[j]
        invariant putmaps[last].Some? && putmaps[last].value.count == count && |putmaps[last].value.slots| == |a.branches|
        invariant forall j :: 0 <= j < |a.branches| ==> putmaps[last].value.slots[j] == (if k < j <= i then j - 1 else j)
        invariant forall j :: k <= j < i ==> branches[j] == a.branches[j + 1]
        invariant forall j :: 0 <= j < k || i <= j < |a.branches| ==> branches[j] == a.branches[j]
      {
        branches := branches[i := branches[i + 1]];
        var newest := putmaps[last].value;
        putmaps := putmaps[last := Some(newest.(slots := newest.slots[i + 1 := i]))];
      }
      branches := branches[..|branches| - 1];
      assert putmaps[last].value.slots == S.RemoveMap(|a.branches|, k);
      assert putmaps == S.SetNewest(a.putmaps, S.RemoveMap(|a.branches|, k));
      assert branches == S.Removed(a.branches, k);
    }

    /** The new putmap is made before the arguments are looked at. */
    method RdwrBranch(k: int, perms: bv32) returns (outcome: S.Outcome)
      requires Valid()
      modifies this
      ensures outcome == S.RdwrOutcome(old(Abs()), k, perms) && Abs() == S.RdwrBranch(old(Abs()), k, perms)
      ensures Valid() <==> outcome == S.Success || outcome == S.WildWrite
      ensures outcome == S.Success ==> S.OnlyModes(old(branches), branches, k, perms)
    {
      S.RdwrBranchKeepsIff(Abs(), k, perms);
      NewPutmap();
      if k < 0 || k > |branches| { return S.InvalidArgument; }
      if !S.GoodPerms(perms) { return S.InvalidArgument; }
      if k == |branches| {
        outcome := S.WildWrite;
      } else {
        branches := branches[k := branches[k].(perms := perms)];
        outcome := S.Success;
      }
      generation := generation + 1;
    }

    // ---------- Lower files ----------

    method BranchputGen(gen: int, index: int)
      requires S.PutChecks(Abs(), gen, index)
      modifies this
      ensures Abs() == S.PutGen(old(Abs()), gen, index)
    {
      if gen == generation {
        branches := branches[index := branches[index].(count := branches[index].count - 1)];
        return;
      }
      var putmap := putmaps[gen - firstPutmap].value;
      var b := putmap.slots[index];
      branches := branches[b := branches[b].(count := branches[b].count - 1)];
      putmap := putmap.(count := putmap.count - 1);
      putmaps := putmaps[gen - firstPutmap := if putmap.count == 0 then None else Some(putmap)];
    }

    /** Puts one lower file; its slot is NULL afterwards. */
    method PutLower(fid: int, i: int)
      requires Valid() && LiveRef(Abs(), fid, i)
      modifies this
      ensures S.PutChecks(old(Abs()), old(files[fid].generation), i) && Abs() == S.DropRef(old(Abs()), fid, i)
      ensures Valid()
    {
      S.LiveRefPassesChecks(Abs(), fid, i);
      S.DropRefKeeps(Abs(), fid, i);
      BranchputGen(files[fid].generation, i);
      files := files[fid := files[fid].(lower := files[fid].lower[i := None])];
    }

    /** Puts every lower file of a file. */
    method PutLowers(fid: int)
      requires Valid() && 0 <= fid < |files| && files[fid].Open?
      modifies this
      ensures Valid() && Abs() == R.DropAll(old(Abs()), fid, old(files[fid].bstart), old(files[fid].bend))
    {
      ghost var s := Abs();
      var bstart, bend := files[fid].bstart, files[fid].bend;
      var i := bstart;
      while i <= bend
        invariant bstart <= i && Valid() && 0 <= fid < |files| && files[fid].Open?
        invariant files[fid].bstart == bstart && files[fid].bend == bend
        invariant R.DropAll(Abs(), fid, i, bend) == R.DropAll(s, fid, bstart, bend)
        decreases bend - i + 1
      {
        assert FileOk(Abs(), files[fid]);
        if files[fid].lower[i].Some? {
          PutLower(fid, i);
        }
        i := i + 1;
      }
    }

    method Release(fid: int)
      requires Valid() && 0 <= fid < |files| && files[fid].Open?
      modifies this
      ensures Valid() && Abs() == R.Release(old(Abs()), fid)
      ensures R.SameBranches(old(Abs()), Abs()) && files == old(files)[fid := Closed]
    {
      R.ReleaseKeeps(Abs(), fid);
      PutLowers(fid);
      files := files[fid := Closed];
    }

    method BranchGet(fid: int, b: int)
      requires 0 <= fid < |files| && files[fid].Open? && 0 <= b < |files[fid].lower| && b < |branches|
      modifies this
      ensures Abs() == S.GetRef(old(Abs()), fid, b)
    {
      files := files[fid := files[fid].(lower := files[fid].lower[b := Some(branches[b].root)])];
      branches := branches[b := branches[b].(count := branches[b].count + 1)];
    }

    /** Tries the branches to the left one by one until the copy succeeds. */
    method CopyLeft(fid: int, copies: seq<bool>) returns (c: int)
      requires 0 <= fid < |files| && files[fid].Open? && |copies| == |branches|
      requires files[fid].bstart <= |files[fid].lower|
      modifies this
      ensures c == R.FirstCopy(copies, old(files[fid].bstart) - 1)
      ensures Abs() == if c < 0 then old(Abs()) else R.MoveLeft(old(Abs()), fid, c)
    {
      ghost var bstart := files[fid].bstart;
      c := files[fid].bstart - 1;
      while c >= 0
        invariant c < |files[fid].lower| && R.FirstCopy(copies, c) == R.FirstCopy(copies, bstart - 1)
        invariant c < bstart && (c < -1 ==> bstart < 0) && Abs() == old(Abs())
        decreases c + 1
      {
        if c < |copies| && copies[c] {
          files := files[fid := files[fid].(bstart := c)];
          BranchGet(fid, c);
          return;
        }
        c := c - 1;
      }
      c := -1;
    }

    method OpenFile(fid: int, h: R.Hidden, fails: seq<bool>, truncates: bool, copies: seq<bool>) returns (ok: bool)
      requires Valid() && R.FreeSlot(Abs(), fid) && R.HiddenOk(Abs(), h) && |fails| == |copies| == |branches|
      modifies this
      ensures Valid() && (Abs(), ok) == R.OpenFile(old(Abs()), fid, h, fails, truncates, copies)
      ensures R.Opened(old(Abs()), Abs(), ok, fid, h, fails, truncates, copies)
    {
      ghost var s := Abs();
      R.OpenFileOpens(s, fid, h, fails, truncates, copies);
      R.OpenFileKeeps(s, fid, h, fails, truncates, copies);
      R.BlankKeeps(s, fid, generation, h);
      var blank := Open(generation, h.bstart, h.bend, R.Blank(|branches|));
      files := if fid == |files| then files + [blank] else files[fid := blank];
      ghost var s1 := Abs();
      assert s1 == R.PutSlot(s, fid, blank);
      if truncates && !h.isDir {
        var c := CopyLeft(fid, copies);
        if c < 0 {
          files := files[fid := Closed];
          assert files == R.PutSlot(s, fid, Closed).files;
        }
        return c >= 0;
      }
      R.OpenLowersKeeps(s1, fid, h, fails, h.bstart, false);
      R.OpenLowersFrame(s1, fid, h, fails, h.bstart, false);
      ok := OpenLowers(fid, h, fails);
      if !ok { Release(fid); }
    }

    /** The opening loop of unionfs_open: the branch is counted once the lower file is open. */
    method OpenLowers(fid: int, h: R.Hidden, fails: seq<bool>) returns (ok: bool)
      requires R.Ready(Abs(), fid, h, fails)
      modifies this
      ensures (Abs(), ok) == R.OpenLowers(old(Abs()), fid, h, fails, h.bstart, false)
    {
      ghost var s := Abs();
      var i := h.bstart;
      while i <= h.bend
        invariant h.bstart <= i && R.Ready(Abs(), fid, h, fails)
        invariant R.OpenLowers(Abs(), fid, h, fails, i, false) == R.OpenLowers(s, fid, h, fails, h.bstart, false)
        decreases h.bend - i + 1
      {
        if R.Wanted(h, i) {
          if fails[i] { return false; }
          BranchGet(fid, i);
        }
        i := i + 1;
      }
      ok := true;
    }

    /** The reopening loop of revalidation: the branch is counted before the lower file is opened. */
    method ReopenLowers(fid: int, h: R.Hidden, fails: seq<bool>) returns (ok: bool)
      requires R.Ready(Abs(), fid, h, fails)
      modifies this
      ensures (Abs(), ok) == R.OpenLowers(old(Abs()), fid, h, fails, h.bstart, true)
    {
      ghost var s := Abs();
      var i := h.bstart;
      while i <= h.bend
        invariant h.bstart <= i && R.Ready(Abs(), fid, h, fails)
        invariant R.OpenLowers(Abs(), fid, h, fails, i, true) == R.OpenLowers(s, fid, h, fails, h.bstart, true)
        decreases h.bend - i + 1
      {
        if R.Wanted(h, i) {
          branches := branches[i := branches[i].(count := branches[i].count + 1)];
          if fails[i] { return false; }
          files := files[fid := files[fid].(lower := files[fid].lower[i := Some(branches[i].root)])];
        }
        i := i + 1;
      }
      ok := true;
    }

    /** The reopening part of unionfs_file_revalidate. */
    method Revalidate(fid: int, h: R.Hidden, fails: seq<bool>, copyFirst: bool, copies: seq<bool>) returns (ok: bool)
      requires Valid() && 0 <= fid < |files| && files[fid].Open?
      requires R.HiddenOk(Abs(), h) && |fails| == |copies| == |branches|
      modifies this
      ensures (Abs(), ok) == R.Revalidate(old(Abs()), fid, h, fails, copyFirst, copies)
      ensures ok ==> Valid()
      ensures R.Reopened(old(Abs()), Abs(), ok, fid, h, fails, copyFirst, copies)
    {
      ghost var s := Abs();
      R.RevalidateReopens(s, fid, h, fails, copyFirst, copies);
      R.RevalidateKeepsIff(s, fid, h, fails, copyFirst, copies);
      if !(generation > files[fid].generation || h.bstart != files[fid].bstart) { return true; }
      CloseForReopen(fid, h);
      ghost var s2 := Abs();
      if copyFirst && !h.isDir {
        var c := CopyLeft(fid, copies);
        files := files[fid := files[fid].(generation := generation)];
        return c >= 0 || h.bstart == 0;
      }
      R.OpenLowersFrame(s2, fid, h, fails, h.bstart, true);
      ok := ReopenLowers(fid, h, fails);
      if ok { files := files[fid := files[fid].(generation := generation)]; }
    }

    /** Throws out the existing lower files and takes over the range of the dentry. */
    method CloseForReopen(fid: int, h: R.Hidden)
      requires Valid() && 0 <= fid < |files| && files[fid].Open? && R.HiddenOk(Abs(), h)
      modifies this
      ensures var f := old(files[fid]);
              Abs() == R.PutSlot(R.DropAll(old(Abs()), fid, f.bstart, f.bend), fid,
                                 Open(f.generation, h.bstart, h.bend, R.Blank(|old(branches)|)))
    {
      R.DropAllFiles(Abs(), fid, files[fid].bstart, files[fid].bend);
      PutLowers(fid);
      files := files[fid := files[fid].(bstart := h.bstart, bend := h.bend, lower := R.Blank(|branches|))];
    }

    /** The delayed copy-up at the end of unionfs_file_revalidate. It also runs for an unlinked file,
        whose generation may be older than the current one. */
    method DelayedCopyup(fid: int, copies: seq<bool>)
      requires Valid() && 0 <= fid < |files| && R.OneLower(files[fid]) && |copies| == |branches|
      modifies this
      ensures Abs() == R.DelayedCopyup(old(Abs()), fid, copies)
      ensures old(files[fid].generation) == old(generation) ==> Valid()
    {
      ghost var s := Abs();
      R.DelayedCopyupKeepsIff(s, fid, copies);
      var bstart := files[fid].bstart;
      var c := CopyLeft(fid, copies);
      if c >= 0 && bstart > files[fid].bstart {
        var bend := files[fid].bend;
        var i := bstart;
        while i <= bend
          invariant bstart <= i && 0 <= fid < |files| && files[fid].Open? && bend < |files[fid].lower|
          invariant R.DropCurrent(Abs(), fid, i, bend) == R.DelayedCopyup(s, fid, copies)
          decreases bend - i + 1
        {
          if files[fid].lower[i].Some? {
            if i < |branches| {
              branches := branches[i := branches[i].(count := branches[i].count - 1)];
            }
            files := files[fid := files[fid].(lower := files[fid].lower[i := None])];
          }
          i := i + 1;
        }
      }
    }
  }
}
