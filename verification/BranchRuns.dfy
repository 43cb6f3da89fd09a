/** Opening, releasing, revalidating and copying up files, and what holds after any run of these
    and of the administrator's operations. */
module BranchRuns {
  import opened Options
  import opened BranchState
  import opened BranchSteps

  /** What a union dentry knows of its lower objects; `present` marks the branches that have one. */
  datatype Hidden = Hidden(bstart: int, bend: int, present: seq<bool>, isDir: bool)

  predicate HiddenOk(s: State, h: Hidden) {
    0 <= h.bstart <= h.bend < |h.present| == |s.branches| && h.present[h.bstart]
  }

  /** Directories open every lower directory, other files only the leftmost object. */
  predicate Wanted(h: Hidden, i: int)
    requires 0 <= i < |h.present|
  {
    if h.isDir then h.present[i] else i == h.bstart
  }

  predicate Ready(s: State, fid: int, h: Hidden, fails: seq<bool>) {
    && HiddenOk(s, h) && |fails| == |s.branches|
    && 0 <= fid < |s.files| && s.files[fid].Open? && |s.files[fid].lower| == |s.branches|
  }

  /** The opening loop from index i on, and whether it got through. The reopening loop of
      revalidation counts a branch before it tries to open on it (`early`), so a failure leaves
      that count behind; unionfs_open counts afterwards. */
  function OpenLowers(s: State, fid: int, h: Hidden, fails: seq<bool>, i: int, early: bool): (r: (State, bool))
    requires Ready(s, fid, h, fails) && h.bstart <= i
    decreases h.bend - i + 1
  {
    if i > h.bend then (s, true)
    else if !Wanted(h, i) then OpenLowers(s, fid, h, fails, i + 1, early)
    else if fails[i] then (if early then BumpCount(s, i, 1) else s, false)
    else OpenLowers(GetRef(s, fid, i), fid, h, fails, i + 1, early)
  }

  predicate NoneFails(h: Hidden, fails: seq<bool>)
    requires 0 <= h.bstart && h.bend < |h.present| == |fails|
  {
    forall i :: h.bstart <= i <= h.bend && Wanted(h, i) ==> !fails[i]
  }

  function Blank(n: nat): (r: seq<Option<Root>>)
    ensures |r| == n && forall i :: 0 <= i < n ==> r[i] == None
  {
    seq(n, _ => None)
  }

  /** The branches that stood when a state was left stand, in the same order and with the same modes. */
  ghost predicate SameBranches(s: State, t: State) {
    && t.generation == s.generation
    && |t.branches| == |s.branches|
    && forall b :: 0 <= b < |s.branches| ==>
         t.branches[b].root == s.branches[b].root && t.branches[b].perms == s.branches[b].perms
  }

  /** branchput_gen over the slots i, .., bend of a file. */
  ghost function DropAll(s: State, fid: int, i: int, bend: int): (t: State)
    requires Inv(s) && 0 <= fid < |s.files| && s.files[fid].Open?
    requires s.files[fid].bstart <= i && bend == s.files[fid].bend
    ensures |t.files| == |s.files| && t.files[fid].Open? && |t.branches| == |s.branches|
    decreases bend - i + 1
  {
    if i > bend then s
    else
      assert FileOk(s, s.files[fid]);
      if s.files[fid].lower[i].Some? then
        LiveRefPassesChecks(s, fid, i);
        DropRefKeeps(s, fid, i);
        DropAll(DropRef(s, fid, i), fid, i + 1, bend)
      else DropAll(s, fid, i + 1, bend)
  }

  lemma {:induction false} DropAllKeeps(s: State, fid: int, i: int, bend: int)
    requires Inv(s) && 0 <= fid < |s.files| && s.files[fid].Open?
    requires s.files[fid].bstart <= i && bend == s.files[fid].bend
    ensures var t := DropAll(s, fid, i, bend); Inv(t) && (Prompt(s) ==> Prompt(t)) && SameBranches(s, t)
    decreases bend - i + 1
  {
    if i <= bend {
      assert FileOk(s, s.files[fid]);
      if s.files[fid].lower[i].Some? {
        LiveRefPassesChecks(s, fid, i);
        var u := DropRef(s, fid, i);
        DropRefKeeps(s, fid, i);
        assert SameBranches(s, u);
        DropAllKeeps(u, fid, i + 1, bend);
        SameBranchesThrough(s, u, DropAll(u, fid, i + 1, bend));
      } else {
        DropAllKeeps(s, fid, i + 1, bend);
      }
    }
  }

  lemma {:induction false} DropAllFiles(s: State, fid: int, i: int, bend: int)
    requires Inv(s) && 0 <= fid < |s.files| && s.files[fid].Open?
    requires s.files[fid].bstart <= i && bend == s.files[fid].bend
    ensures var t := DropAll(s, fid, i, bend);
            && (forall k :: 0 <= k < |s.files| && k != fid ==> t.files[k] == s.files[k])
            && t.files[fid] == s.files[fid].(lower := t.files[fid].lower) && |t.files[fid].lower| == |s.files[fid].lower|
            && (forall j :: 0 <= j < |s.files[fid].lower| ==>
                  t.files[fid].lower[j] == (if j < i then s.files[fid].lower[j] else None))
    decreases bend - i + 1
  {
    assert FileOk(s, s.files[fid]);
    if i <= bend {
      if s.files[fid].lower[i].Some? {
        LiveRefPassesChecks(s, fid, i);
        DropRefKeeps(s, fid, i);
        DropAllFiles(DropRef(s, fid, i), fid, i + 1, bend);
      } else {
        DropAllFiles(s, fid, i + 1, bend);
      }
    }
  }

  ghost function PutSlot(s: State, fid: int, f: FileSlot): State
    requires 0 <= fid <= |s.files|
  {
    s.(files := if fid == |s.files| then s.files + [f] else s.files[fid := f])
  }

  /** A slot without references can be replaced by another one without references. */
  lemma PutSlotKeeps(s: State, fid: int, f: FileSlot)
    requires Inv(s) && 0 <= fid <= |s.files|
    requires fid < |s.files| ==> SlotRefs(s.files[fid]) == 0
    requires FileOk(s, f) && SlotRefs(f) == 0
    ensures Inv(PutSlot(s, fid, f)) && (Prompt(s) ==> Prompt(PutSlot(s, fid, f)))
  {
    var t := PutSlot(s, fid, f);
    hide Holders, GenRefs, SlotRefs;
    forall r: Root ensures Holders(t.files, r) == Holders(s.files, r) { PutSlotCounts(s, fid, f, r, 0); }
    forall k | 0 <= k < |t.putmaps|
      ensures GenRefs(t.files, t.firstPutmap + k) == GenRefs(s.files, s.firstPutmap + k) && t.putmaps[k] == s.putmaps[k]
      ensures PromptAt(t, k) <==> PromptAt(s, k)
    {
      PutSlotCounts(s, fid, f, 0, s.firstPutmap + k);
    }
    forall k | 0 <= k < |t.files| ensures FileOk(t, t.files[k]) {
      if k == fid { FileOkMoves(s, t, f); } else { assert FileOk(s, s.files[k]); FileOkMoves(s, t, s.files[k]); }
    }
  }

  lemma PutSlotCounts(s: State, fid: int, f: FileSlot, r: Root, g: int)
    requires 0 <= fid <= |s.files|
    requires fid < |s.files| ==> SlotRefs(s.files[fid]) == 0
    requires SlotRefs(f) == 0
    ensures Holders(PutSlot(s, fid, f).files, r) == Holders(s.files, r)
    ensures GenRefs(PutSlot(s, fid, f).files, g) == GenRefs(s.files, g)
  {
    NoRefsNoHolds(f, r);
    if fid < |s.files| {
      NoRefsNoHolds(s.files[fid], r);
      FilesUpdate(s.files, fid, f, r, g);
    } else {
      assert (s.files + [f])[..|s.files|] == s.files;
    }
  }

  lemma NoRefsNoHolds(f: FileSlot, r: Root)
    requires SlotRefs(f) == 0
    ensures SlotHolds(f, r) == 0
  {
    if f.Open? {
      forall i | 0 <= i < |f.lower| ensures f.lower[i].None? { if f.lower[i].Some? { LowerPositive(f.lower, i); } }
      LowerEmpty(f.lower, r);
    }
  }

  // ---------- Release ----------

  ghost function Release(s: State, fid: int): State
    requires Inv(s) && 0 <= fid < |s.files| && s.files[fid].Open?
  {
    var t := DropAll(s, fid, s.files[fid].bstart, s.files[fid].bend);
    PutSlot(t, fid, Closed)
  }

  lemma ReleaseKeeps(s: State, fid: int)
    requires Inv(s) && 0 <= fid < |s.files| && s.files[fid].Open?
    ensures var t := Release(s, fid);
            Inv(t) && (Prompt(s) ==> Prompt(t)) && SameBranches(s, t) && t.files == s.files[fid := Closed]
  {
    var t := DropAll(s, fid, s.files[fid].bstart, s.files[fid].bend);
    DropAllKeeps(s, fid, s.files[fid].bstart, s.files[fid].bend);
    DropAllFiles(s, fid, s.files[fid].bstart, s.files[fid].bend);
    assert FileOk(s, s.files[fid]);
    LowerEmpty(t.files[fid].lower, 0);
    PutSlotKeeps(t, fid, Closed);
  }

  // ---------- Open ----------

  lemma GetRefFrame(s: State, fid: int, h: Hidden, fails: seq<bool>, i: int)
    requires Ready(s, fid, h, fails) && 0 <= i < |s.branches|
    ensures var t := GetRef(s, fid, i);
            && Ready(t, fid, h, fails) && SameBranches(s, t) && |t.files| == |s.files|
            && t.files[fid] == s.files[fid].(lower := s.files[fid].lower[i := Some(s.branches[i].root)])
            && (forall k :: 0 <= k < |s.files| && k != fid ==> t.files[k] == s.files[k])
  {
  }

  lemma {:induction false} OpenLowersOk(s: State, fid: int, h: Hidden, fails: seq<bool>, i: int, early: bool)
    requires Ready(s, fid, h, fails) && h.bstart <= i
    ensures OpenLowers(s, fid, h, fails, i, early).1 <==> forall j :: i <= j <= h.bend && Wanted(h, j) ==> !fails[j]
    decreases h.bend - i + 1
  {
    if i <= h.bend {
      if !Wanted(h, i) {
        OpenLowersOk(s, fid, h, fails, i + 1, early);
      } else if !fails[i] {
        OpenLowersOk(GetRef(s, fid, i), fid, h, fails, i + 1, early);
      }
    }
  }

  ghost predicate BlankFrom(f: FileSlot, i: int) {
    f.Open? && 0 <= i && forall j :: i <= j < |f.lower| ==> f.lower[j].None?
  }

  lemma {:induction false} OpenLowersKeeps(s: State, fid: int, h: Hidden, fails: seq<bool>, i: int, early: bool)
    requires Inv(s) && Ready(s, fid, h, fails) && h.bstart <= i
    requires s.files[fid].generation == s.generation && s.files[fid].bstart <= h.bstart && s.files[fid].bend == h.bend
    requires BlankFrom(s.files[fid], i)
    ensures var (t, ok) := OpenLowers(s, fid, h, fails, i, early);
            && (ok || !early ==> Inv(t) && (Prompt(s) ==> Prompt(t)) && SameBranches(s, t))
            && (!ok && early ==> TotalCount(t.branches) == TotalRefs(t.files) + 1)
    decreases h.bend - i + 1
  {
    if i <= h.bend {
      if !Wanted(h, i) {
        OpenLowersKeeps(s, fid, h, fails, i + 1, early);
      } else if fails[i] {
        BumpLeaks(s, i);
        hide *;
      } else {
        var u := GetRef(s, fid, i);
        assert Inv(u) && (Prompt(s) ==> Prompt(u)) by { GetRefKeeps(s, fid, i); }
        GetRefFrame(s, fid, h, fails, i);
        hide Inv, Prompt, GetRef;
        OpenLowersKeeps(u, fid, h, fails, i + 1, early);
        SameBranchesThrough(s, u, OpenLowers(u, fid, h, fails, i + 1, early).0);
      }
    }
  }

  lemma BumpLeaks(s: State, i: int)
    requires Inv(s) && 0 <= i < |s.branches|
    ensures TotalCount(BumpCount(s, i, 1).branches) == TotalRefs(s.files) + 1 && BumpCount(s, i, 1).files == s.files
  {
    CountsSumToRefs(s);
    TotalCountUpdate(s.branches, i, s.branches[i].(count := s.branches[i].count + 1));
  }

  lemma SameBranchesThrough(s: State, t: State, u: State)
    requires SameBranches(s, t)
    ensures SameBranches(t, u) ==> SameBranches(s, u)
  {
  }

  lemma {:induction false} TotalCountUpdate(branches: seq<Branch>, k: int, b: Branch)
    requires 0 <= k < |branches|
    ensures TotalCount(branches[k := b]) == TotalCount(branches) - branches[k].count + b.count
  {
    var n := |branches| - 1;
    if k == n {
      assert branches[k := b][..n] == branches[..n];
    } else {
      TotalCountUpdate(branches[..n], k, b);
      assert branches[k := b][..n] == branches[..n][k := b];
    }
  }

  /** The first branch at or left of i to which the copy succeeds; -1 if there is none. */
  function FirstCopy(copies: seq<bool>, i: int): (c: int)
    ensures -1 <= c && (c >= 0 ==> c <= i && c < |copies| && copies[c])
    ensures forall j :: c < j <= i && 0 <= j < |copies| ==> !copies[j]
    decreases i + 1
  {
    if i < 0 then -1 else if i < |copies| && copies[i] then i else FirstCopy(copies, i - 1)
  }

  ghost predicate FreeSlot(s: State, fid: int) {
    fid == |s.files| || (0 <= fid < |s.files| && s.files[fid].Closed?)
  }

  /** The file takes its place at branch c, left of where it stood. */
  function MoveLeft(s: State, fid: int, c: int): State
    requires 0 <= fid < |s.files| && s.files[fid].Open? && 0 <= c < |s.files[fid].lower| && c < |s.branches|
  {
    GetRef(s.(files := s.files[fid := s.files[fid].(bstart := c)]), fid, c)
  }

  /** unionfs_open on a free slot of the file table. `truncates`: a regular file on a read-only
      branch is opened for truncation, so it must be copied up at once. */
  ghost function OpenFile(s: State, fid: int, h: Hidden, fails: seq<bool>, truncates: bool, copies: seq<bool>): (State, bool)
    requires Inv(s) && FreeSlot(s, fid) && HiddenOk(s, h) && |fails| == |copies| == |s.branches|
  {
    var blank := Open(s.generation, h.bstart, h.bend, Blank(|s.branches|));
    var s1 := PutSlot(s, fid, blank);
    if truncates && !h.isDir then
      var c := FirstCopy(copies, h.bstart - 1);
      if c < 0 then (PutSlot(s, fid, Closed), false) else (MoveLeft(s1, fid, c), true)
    else
      var (t, ok) := OpenLowers(s1, fid, h, fails, h.bstart, false);
      if ok then (t, true)
      else
        BlankKeeps(s, fid, s.generation, h);
        OpenLowersKeeps(s1, fid, h, fails, h.bstart, false);
        OpenLowersFrame(s1, fid, h, fails, h.bstart, false);
        (Release(t, fid), false)
  }

  lemma BlankKeeps(s: State, fid: int, g: int, h: Hidden)
    requires Inv(s) && 0 <= fid <= |s.files| && HiddenOk(s, h) && g <= s.generation
    requires fid < |s.files| ==> SlotRefs(s.files[fid]) == 0
    ensures var t := PutSlot(s, fid, Open(g, h.bstart, h.bend, Blank(|s.branches|)));
            Inv(t) && (Prompt(s) ==> Prompt(t))
  {
    LowerEmpty(Blank(|s.branches|), 0);
    PutSlotKeeps(s, fid, Open(g, h.bstart, h.bend, Blank(|s.branches|)));
  }

  lemma MoveLeftKeeps(s: State, fid: int, c: int)
    requires Inv(s) && 0 <= fid < |s.files| && s.files[fid].Open? && s.files[fid].generation == s.generation
    requires 0 <= c < s.files[fid].bstart <= s.files[fid].bend && c < |s.branches|
    ensures Inv(MoveLeft(s, fid, c)) && (Prompt(s) ==> Prompt(MoveLeft(s, fid, c))) && SameBranches(s, MoveLeft(s, fid, c))
  {
    var f := s.files[fid].(bstart := c);
    var u := s.(files := s.files[fid := f]);
    assert FileOk(s, s.files[fid]);
    forall r: Root ensures Holders(u.files, r) == Holders(s.files, r) { FilesUpdate(s.files, fid, f, r, 0); }
    forall k | 0 <= k < |u.putmaps|
      ensures u.putmaps[k] == s.putmaps[k] && GenRefs(u.files, u.firstPutmap + k) == GenRefs(s.files, s.firstPutmap + k)
      ensures PromptAt(u, k) <==> PromptAt(s, k)
    {
      FilesUpdate(s.files, fid, f, 0, s.firstPutmap + k);
    }
    forall k | 0 <= k < |u.files| ensures FileOk(u, u.files[k]) {
      assert FileOk(s, s.files[k]);
      FileOkMoves(s, u, s.files[k]);
    }
    GetRefKeeps(u, fid, c);
  }

  /** A failed open leaves the slot closed and the counters right. */
  lemma FailedOpenKeeps(s: State, fid: int, h: Hidden, fails: seq<bool>)
    requires Inv(s) && FreeSlot(s, fid) && HiddenOk(s, h) && |fails| == |s.branches|
    requires !OpenLowers(PutSlot(s, fid, Open(s.generation, h.bstart, h.bend, Blank(|s.branches|))), fid, h, fails, h.bstart, false).1
    ensures var t := OpenFile(s, fid, h, fails, false, fails).0;
            Inv(t) && (Prompt(s) ==> Prompt(t)) && SameBranches(s, t) && t.files == PutSlot(s, fid, Closed).files
  {
    BlankKeeps(s, fid, s.generation, h);
    var s1 := PutSlot(s, fid, Open(s.generation, h.bstart, h.bend, Blank(|s.branches|)));
    OpenLowersKeeps(s1, fid, h, fails, h.bstart, false);
    OpenLowersFrame(s1, fid, h, fails, h.bstart, false);
    var t := OpenLowers(s1, fid, h, fails, h.bstart, false).0;
    ReleaseKeeps(t, fid);
  }

  lemma OpenFileKeeps(s: State, fid: int, h: Hidden, fails: seq<bool>, truncates: bool, copies: seq<bool>)
    requires Inv(s) && FreeSlot(s, fid) && HiddenOk(s, h) && |fails| == |copies| == |s.branches|
    ensures var (t, ok) := OpenFile(s, fid, h, fails, truncates, copies);
            Inv(t) && (Prompt(s) ==> Prompt(t)) && SameBranches(s, t) && (!ok ==> t.files == PutSlot(s, fid, Closed).files)
  {
    BlankKeeps(s, fid, s.generation, h);
    var s1 := PutSlot(s, fid, Open(s.generation, h.bstart, h.bend, Blank(|s.branches|)));
    if truncates && !h.isDir {
      var c := FirstCopy(copies, h.bstart - 1);
      if c < 0 { PutSlotKeeps(s, fid, Closed); } else { MoveLeftKeeps(s1, fid, c); }
    } else if OpenLowers(s1, fid, h, fails, h.bstart, false).1 {
      OpenLowersKeeps(s1, fid, h, fails, h.bstart, false);
    } else {
      FailedOpenKeeps(s, fid, h, fails);
    }
  }

  lemma {:induction false} OpenLowersFrame(s: State, fid: int, h: Hidden, fails: seq<bool>, i: int, early: bool)
    requires Ready(s, fid, h, fails) && h.bstart <= i
    ensures var t := OpenLowers(s, fid, h, fails, i, early).0;
            && t == s.(branches := t.branches, files := t.files) && |t.files| == |s.files|
            && t.files[fid].Open? && t.files[fid] == s.files[fid].(lower := t.files[fid].lower)
            && (forall k :: 0 <= k < |s.files| && k != fid ==> t.files[k] == s.files[k])
    decreases h.bend - i + 1
  {
    if i <= h.bend {
      if !Wanted(h, i) {
        OpenLowersFrame(s, fid, h, fails, i + 1, early);
      } else if !fails[i] {
        GetRefFrame(s, fid, h, fails, i);
        OpenLowersFrame(GetRef(s, fid, i), fid, h, fails, i + 1, early);
      }
    }
  }

  // ---------- Which lower files are open afterwards ----------

  /** Of a directory every lower directory is open, of another file the leftmost object, each on its own branch. */
  ghost predicate LowersOpen(f: FileSlot, s: State, h: Hidden) {
    && f.Open? && f.generation == s.generation && f.bstart == h.bstart && f.bend == h.bend
    && |f.lower| == |h.present| == |s.branches|
    && forall i :: 0 <= i < |f.lower| ==>
         f.lower[i] == if h.bstart <= i <= h.bend && (if h.isDir then h.present[i] else i == h.bstart) then Some(s.branches[i].root) else None
  }

  /** Nothing is open but the copy in branch c. */
  ghost predicate CopyOpen(f: FileSlot, s: State, c: int, bend: int) {
    && f.Open? && f.generation == s.generation && f.bstart == c && f.bend == bend && |f.lower| == |s.branches|
    && forall i :: 0 <= i < |f.lower| ==> f.lower[i] == if i == c then Some(s.branches[i].root) else None
  }

  /** The rightmost branch left of b to which the copy succeeds. */
  ghost predicate CopiesTo(copies: seq<bool>, b: int, c: int) {
    0 <= c < b <= |copies| && copies[c] && forall j :: c < j < b ==> !copies[j]
  }

  ghost predicate OpensFail(h: Hidden, fails: seq<bool>) {
    exists i :: 0 <= h.bstart <= i <= h.bend && i < |h.present| && i < |fails| && fails[i]
                && (if h.isDir then h.present[i] else i == h.bstart)
  }

  lemma FirstCopyIs(copies: seq<bool>, b: int)
    requires 0 <= b <= |copies|
    ensures var c := FirstCopy(copies, b - 1);
            if c >= 0 then CopiesTo(copies, b, c) else forall j :: 0 <= j < b ==> !copies[j]
    ensures forall c :: CopiesTo(copies, b, c) ==> c == FirstCopy(copies, b - 1)
  {
  }

  lemma {:induction false} OpenLowersOpens(s: State, fid: int, h: Hidden, fails: seq<bool>, i: int, early: bool)
    requires Ready(s, fid, h, fails) && h.bstart <= i
    ensures var (t, ok) := OpenLowers(s, fid, h, fails, i, early);
            && |t.files| == |s.files| && t.files[fid].Open? && |t.files[fid].lower| == |s.branches|
            && (ok ==> forall j :: 0 <= j < |s.branches| ==>
                 t.files[fid].lower[j] == if i <= j <= h.bend && (if h.isDir then h.present[j] else j == h.bstart)
                                          then Some(s.branches[j].root) else s.files[fid].lower[j])
    decreases h.bend - i + 1
  {
    if i <= h.bend {
      if !Wanted(h, i) {
        OpenLowersOpens(s, fid, h, fails, i + 1, early);
      } else if !fails[i] {
        GetRefFrame(s, fid, h, fails, i);
        OpenLowersOpens(GetRef(s, fid, i), fid, h, fails, i + 1, early);
      }
    }
  }

  lemma OpensFailIff(s: State, fid: int, h: Hidden, fails: seq<bool>, early: bool)
    requires Ready(s, fid, h, fails)
    ensures OpenLowers(s, fid, h, fails, h.bstart, early).1 <==> !OpensFail(h, fails)
  {
    OpenLowersOk(s, fid, h, fails, h.bstart, early);
  }

  /** Opening fills exactly the slots that belong to the file: of a directory one for each branch that has it, of
      another file one; when the open truncates and copies up, the one of the copy. When it fails the slot of the
      file table is free, and other files are never touched. */
  ghost predicate Opened(s: State, t: State, ok: bool, fid: int, h: Hidden, fails: seq<bool>, truncates: bool, copies: seq<bool>)
    requires 0 <= fid <= |s.files|
  {
    var byCopy := truncates && !h.isDir;
    && |t.files| == (if fid == |s.files| then |s.files| + 1 else |s.files|)
    && (forall k :: 0 <= k < |s.files| && k != fid ==> t.files[k] == s.files[k])
    && (ok <==> if byCopy then exists c :: CopiesTo(copies, h.bstart, c) else !OpensFail(h, fails))
    && (!ok ==> t.files[fid] == Closed)
    && (ok && !byCopy ==> LowersOpen(t.files[fid], s, h))
    && (ok && byCopy ==> forall c :: CopiesTo(copies, h.bstart, c) ==> CopyOpen(t.files[fid], s, c, h.bend))
  }

  lemma OpenFileOpens(s: State, fid: int, h: Hidden, fails: seq<bool>, truncates: bool, copies: seq<bool>)
    requires Inv(s) && FreeSlot(s, fid) && HiddenOk(s, h) && |fails| == |copies| == |s.branches|
    ensures var (t, ok) := OpenFile(s, fid, h, fails, truncates, copies);
            Opened(s, t, ok, fid, h, fails, truncates, copies)
  {
    var s1 := PutSlot(s, fid, Open(s.generation, h.bstart, h.bend, Blank(|s.branches|)));
    if truncates && !h.isDir {
      FirstCopyIs(copies, h.bstart);
    } else {
      OpensFailIff(s1, fid, h, fails, false);
      OpenLowersFrame(s1, fid, h, fails, h.bstart, false);
      OpenLowersOpens(s1, fid, h, fails, h.bstart, false);
      if !OpenLowers(s1, fid, h, fails, h.bstart, false).1 { FailedOpenKeeps(s, fid, h, fails); }
    }
  }

  // ---------- Revalidation ----------

  predicate NeedsReopen(s: State, fid: int, h: Hidden)
    requires 0 <= fid < |s.files| && s.files[fid].Open?
  {
    s.generation > s.files[fid].generation || h.bstart != s.files[fid].bstart
  }

  function SetGeneration(s: State, fid: int, g: int): State
    requires 0 <= fid < |s.files| && s.files[fid].Open?
  {
    s.(files := s.files[fid := s.files[fid].(generation := g)])
  }

  /** The reopening part of unionfs_file_revalidate for a file whose dentry is not deleted.
      `copyFirst`: a regular file on a read-only branch is about to be written. The file keeps
      its old generation until the new lower files are open. In the leftmost branch there is nowhere to
      copy to, and the call succeeds with no lower file open. */
  ghost function Revalidate(s: State, fid: int, h: Hidden, fails: seq<bool>, copyFirst: bool, copies: seq<bool>): (State, bool)
    requires Inv(s) && 0 <= fid < |s.files| && s.files[fid].Open?
    requires HiddenOk(s, h) && |fails| == |copies| == |s.branches|
  {
    if !NeedsReopen(s, fid, h) then (s, true)
    else
      var f := s.files[fid];
      var s1 := DropAll(s, fid, f.bstart, f.bend);
      var s2 := PutSlot(s1, fid, Open(f.generation, h.bstart, h.bend, Blank(|s.branches|)));
      if copyFirst && !h.isDir then
        var c := FirstCopy(copies, h.bstart - 1);
        if c < 0 then (SetGeneration(s2, fid, s.generation), h.bstart == 0)
        else (SetGeneration(MoveLeft(s2, fid, c), fid, s.generation), true)
      else
        var (t, ok) := OpenLowers(s2, fid, h, fails, h.bstart, true);
        OpenLowersFrame(s2, fid, h, fails, h.bstart, true);
        if ok then (SetGeneration(t, fid, s.generation), true) else (t, false)
  }

  /** Opening does not look at the file's generation, so it can be set before or after. */
  lemma {:induction false} OpenLowersSetGeneration(s: State, fid: int, h: Hidden, fails: seq<bool>, i: int, early: bool, g: int)
    requires Ready(s, fid, h, fails) && h.bstart <= i
    ensures var (t, ok) := OpenLowers(s, fid, h, fails, i, early);
            && t.files != [] && fid < |t.files| && t.files[fid].Open?
            && OpenLowers(SetGeneration(s, fid, g), fid, h, fails, i, early) == (SetGeneration(t, fid, g), ok)
    decreases h.bend - i + 1
  {
    if i <= h.bend {
      if !Wanted(h, i) {
        OpenLowersSetGeneration(s, fid, h, fails, i + 1, early, g);
      } else if !fails[i] {
        assert GetRef(SetGeneration(s, fid, g), fid, i) == SetGeneration(GetRef(s, fid, i), fid, g);
        OpenLowersSetGeneration(GetRef(s, fid, i), fid, h, fails, i + 1, early, g);
      }
    }
  }

  lemma {:induction false} TotalRefsSetGeneration(files: seq<FileSlot>, fid: int, g: int)
    requires 0 <= fid < |files| && files[fid].Open?
    ensures TotalRefs(files[fid := files[fid].(generation := g)]) == TotalRefs(files)
  {
    FilesUpdate(files, fid, files[fid].(generation := g), 0, 0);
  }

  /** The file as it is reopened, seen with its new generation already in place. */
  lemma ReopenedBlank(s: State, fid: int, h: Hidden)
    requires Inv(s) && 0 <= fid < |s.files| && s.files[fid].Open? && HiddenOk(s, h)
    ensures var f := s.files[fid];
            var s1 := DropAll(s, fid, f.bstart, f.bend);
            var s2 := PutSlot(s1, fid, Open(f.generation, h.bstart, h.bend, Blank(|s.branches|)));
            var u := SetGeneration(s2, fid, s.generation);
            && Inv(u) && (Prompt(s) ==> Prompt(u)) && SameBranches(s, u) && |u.files| == |s.files|
            && u.files[fid] == Open(s.generation, h.bstart, h.bend, Blank(|s.branches|))
  {
    assert FileOk(s, s.files[fid]);
    var f := s.files[fid];
    var s1 := DropAll(s, fid, f.bstart, f.bend);
    DropAllKeeps(s, fid, f.bstart, f.bend);
    DropAllFiles(s, fid, f.bstart, f.bend);
    LowerEmpty(s1.files[fid].lower, 0);
    var s2 := PutSlot(s1, fid, Open(f.generation, h.bstart, h.bend, Blank(|s.branches|)));
    BlankKeeps(s1, fid, s.generation, h);
    assert SetGeneration(s2, fid, s.generation) == PutSlot(s1, fid, Open(s.generation, h.bstart, h.bend, Blank(|s.branches|)));
  }

  /** A failed reopening leaves one count that belongs to no open file. */
  lemma FailedReopenLeaks(s: State, fid: int, h: Hidden, fails: seq<bool>)
    requires Ready(s, fid, h, fails)
    requires var u := SetGeneration(s, fid, s.generation); Inv(u) && BlankFrom(u.files[fid], h.bstart)
    requires s.files[fid].bstart == h.bstart && s.files[fid].bend == h.bend
    requires !OpenLowers(s, fid, h, fails, h.bstart, true).1
    ensures !Inv(OpenLowers(s, fid, h, fails, h.bstart, true).0)
  {
    var t := OpenLowers(s, fid, h, fails, h.bstart, true).0;
    OpenLowersSetGeneration(s, fid, h, fails, h.bstart, true, s.generation);
    OpenLowersKeeps(SetGeneration(s, fid, s.generation), fid, h, fails, h.bstart, true);
    TotalRefsSetGeneration(t.files, fid, s.generation);
    if Inv(t) { CountsSumToRefs(t); }
  }

  lemma SuccessfulReopenKeeps(s: State, fid: int, h: Hidden, fails: seq<bool>)
    requires Ready(s, fid, h, fails)
    requires var u := SetGeneration(s, fid, s.generation); Inv(u) && BlankFrom(u.files[fid], h.bstart)
    requires s.files[fid].bstart == h.bstart && s.files[fid].bend == h.bend
    requires OpenLowers(s, fid, h, fails, h.bstart, true).1
    ensures var t := OpenLowers(s, fid, h, fails, h.bstart, true).0;
            var u := SetGeneration(s, fid, s.generation);
            && fid < |t.files| && t.files[fid].Open?
            && var v := SetGeneration(t, fid, s.generation);
               Inv(v) && (Prompt(u) ==> Prompt(v)) && SameBranches(u, v)
  {
    OpenLowersSetGeneration(s, fid, h, fails, h.bstart, true, s.generation);
    OpenLowersKeeps(SetGeneration(s, fid, s.generation), fid, h, fails, h.bstart, true);
  }

  lemma ReopenByCopyKeeps(s: State, fid: int, c: int)
    requires 0 <= fid < |s.files| && s.files[fid].Open?
    requires Inv(SetGeneration(s, fid, s.generation))
    requires 0 <= c < s.files[fid].bstart <= s.files[fid].bend < |s.files[fid].lower| && c < |s.branches|
    ensures var u := SetGeneration(s, fid, s.generation);
            var v := SetGeneration(MoveLeft(s, fid, c), fid, s.generation);
            Inv(v) && (Prompt(u) ==> Prompt(v)) && SameBranches(u, v)
  {
    var u := SetGeneration(s, fid, s.generation);
    MoveLeftKeeps(u, fid, c);
    assert SetGeneration(MoveLeft(s, fid, c), fid, s.generation) == MoveLeft(u, fid, c);
  }

  /** Revalidation keeps the bookkeeping exactly when no lower open fails: the reopening loop counts
      the branch first, and on a failure that count belongs to no open file. */
  lemma RevalidateKeepsIff(s: State, fid: int, h: Hidden, fails: seq<bool>, copyFirst: bool, copies: seq<bool>)
    requires Inv(s) && 0 <= fid < |s.files| && s.files[fid].Open?
    requires HiddenOk(s, h) && |fails| == |copies| == |s.branches|
    ensures var (t, ok) := Revalidate(s, fid, h, fails, copyFirst, copies);
            && (Inv(t) <==> !NeedsReopen(s, fid, h) || (copyFirst && !h.isDir) || NoneFails(h, fails))
            && (Inv(t) && Prompt(s) ==> Prompt(t))
            && (Inv(t) ==> SameBranches(s, t))
            && (ok ==> Inv(t))
  {
    if NeedsReopen(s, fid, h) {
      var f := s.files[fid];
      var s2 := PutSlot(DropAll(s, fid, f.bstart, f.bend), fid, Open(f.generation, h.bstart, h.bend, Blank(|s.branches|)));
      ReopenedBlank(s, fid, h);
      if copyFirst && !h.isDir {
        var c := FirstCopy(copies, h.bstart - 1);
        if c >= 0 { ReopenByCopyKeeps(s2, fid, c); }
      } else {
        OpenLowersOk(s2, fid, h, fails, h.bstart, true);
        if OpenLowers(s2, fid, h, fails, h.bstart, true).1 {
          SuccessfulReopenKeeps(s2, fid, h, fails);
        } else {
          FailedReopenLeaks(s2, fid, h, fails);
        }
      }
    }
  }

  /** A file is reopened exactly when its generation is over or its leftmost branch is another. It then has the
      lower files that a fresh open would give it, in the present generation; when one of them fails it keeps
      its old generation. */
  ghost predicate Reopened(s: State, t: State, ok: bool, fid: int, h: Hidden, fails: seq<bool>, copyFirst: bool, copies: seq<bool>)
    requires 0 <= fid < |s.files| && s.files[fid].Open?
  {
    var f := s.files[fid]; var byCopy := copyFirst && !h.isDir;
    && |t.files| == |s.files| && t.files[fid].Open?
    && (forall k :: 0 <= k < |s.files| && k != fid ==> t.files[k] == s.files[k])
    && if f.generation >= s.generation && f.bstart == h.bstart then ok && t == s
       else if !byCopy then
         && (ok <==> !OpensFail(h, fails)) && (ok ==> LowersOpen(t.files[fid], s, h))
         && (!ok ==> t.files[fid].generation == f.generation)
       else if exists c :: CopiesTo(copies, h.bstart, c) then
         ok && forall c :: CopiesTo(copies, h.bstart, c) ==> CopyOpen(t.files[fid], s, c, h.bend)
       else
         (ok <==> h.bstart == 0) && t.files[fid] == Open(s.generation, h.bstart, h.bend, Blank(|s.branches|))
  }

  lemma RevalidateReopens(s: State, fid: int, h: Hidden, fails: seq<bool>, copyFirst: bool, copies: seq<bool>)
    requires Inv(s) && 0 <= fid < |s.files| && s.files[fid].Open?
    requires HiddenOk(s, h) && |fails| == |copies| == |s.branches|
    ensures var (t, ok) := Revalidate(s, fid, h, fails, copyFirst, copies);
            Reopened(s, t, ok, fid, h, fails, copyFirst, copies)
  {
    if s.files[fid].generation < s.generation || s.files[fid].bstart != h.bstart {
      if copyFirst && !h.isDir {
        ReopensByCopy(s, fid, h, fails, copies);
      } else {
        ReopensLowers(s, fid, h, fails, copyFirst, copies);
      }
    }
  }

  /** What is left when a file has been closed for reopening. */
  lemma ClosedForReopen(s: State, fid: int, h: Hidden)
    requires Inv(s) && 0 <= fid < |s.files| && s.files[fid].Open? && HiddenOk(s, h)
    ensures var f := s.files[fid]; var s1 := DropAll(s, fid, f.bstart, f.bend);
            var s2 := PutSlot(s1, fid, Open(f.generation, h.bstart, h.bend, Blank(|s.branches|)));
            && |s2.files| == |s.files| && s2.generation == s.generation && HiddenOk(s2, h) && SameBranches(s, s2)
            && s2.files == s.files[fid := Open(f.generation, h.bstart, h.bend, Blank(|s.branches|))]
  {
    assert FileOk(s, s.files[fid]);
    DropAllFiles(s, fid, s.files[fid].bstart, s.files[fid].bend);
    DropAllKeeps(s, fid, s.files[fid].bstart, s.files[fid].bend);
  }

  lemma ReopensByCopy(s: State, fid: int, h: Hidden, fails: seq<bool>, copies: seq<bool>)
    requires Inv(s) && 0 <= fid < |s.files| && s.files[fid].Open?
    requires HiddenOk(s, h) && |fails| == |copies| == |s.branches| && !h.isDir
    requires s.files[fid].generation < s.generation || s.files[fid].bstart != h.bstart
    ensures var (t, ok) := Revalidate(s, fid, h, fails, true, copies); Reopened(s, t, ok, fid, h, fails, true, copies)
  {
    ClosedForReopen(s, fid, h);
    FirstCopyIs(copies, h.bstart);
    hide Inv, DropAll;
  }

  lemma ReopensLowers(s: State, fid: int, h: Hidden, fails: seq<bool>, copyFirst: bool, copies: seq<bool>)
    requires Inv(s) && 0 <= fid < |s.files| && s.files[fid].Open?
    requires HiddenOk(s, h) && |fails| == |copies| == |s.branches| && !(copyFirst && !h.isDir)
    requires s.files[fid].generation < s.generation || s.files[fid].bstart != h.bstart
    ensures var (t, ok) := Revalidate(s, fid, h, fails, copyFirst, copies); Reopened(s, t, ok, fid, h, fails, copyFirst, copies)
  {
    var f := s.files[fid];
    ClosedForReopen(s, fid, h);
    var s2 := PutSlot(DropAll(s, fid, f.bstart, f.bend), fid, Open(f.generation, h.bstart, h.bend, Blank(|s.branches|)));
    OpensFailIff(s2, fid, h, fails, true);
    OpenLowersFrame(s2, fid, h, fails, h.bstart, true);
    OpenLowersOpens(s2, fid, h, fails, h.bstart, true);
    hide Inv, DropAll, OpenLowers, OpensFail;
  }

  // ---------- Copy-up on the first write ----------

  /** branchput on the current index for every open slot i, .., bend. */
  function DropCurrent(s: State, fid: int, i: int, bend: int): (t: State)
    requires 0 <= fid < |s.files| && s.files[fid].Open? && 0 <= i && bend < |s.files[fid].lower|
    ensures |t.files| == |s.files| && t.files[fid].Open?
    decreases bend - i + 1
  {
    if i > bend then s
    else if s.files[fid].lower[i].Some? then
      var u := if i < |s.branches| then BumpCount(s, i, -1) else s;
      DropCurrent(SetLower(u, fid, i, None), fid, i + 1, bend)
    else DropCurrent(s, fid, i + 1, bend)
  }

  /** The delayed copy-up at the end of unionfs_file_revalidate: it uses current indices throughout. */
  function DelayedCopyup(s: State, fid: int, copies: seq<bool>): (t: State)
    requires 0 <= fid < |s.files| && s.files[fid].Open? && |copies| == |s.branches|
    requires 0 <= s.files[fid].bstart <= s.files[fid].bend < |s.files[fid].lower|
    ensures |t.files| == |s.files| && t.files[fid].Open?
  {
    var f := s.files[fid];
    var c := FirstCopy(copies, f.bstart - 1);
    if c < 0 then s else DropCurrent(MoveLeft(s, fid, c), fid, f.bstart, f.bend)
  }

  ghost predicate OneLower(f: FileSlot) {
    && f.Open? && 0 <= f.bstart <= f.bend < |f.lower| && f.lower[f.bstart].Some?
    && forall i :: 0 <= i < |f.lower| && i != f.bstart ==> f.lower[i].None?
  }

  lemma {:induction false} DropCurrentNothing(s: State, fid: int, i: int, bend: int)
    requires 0 <= fid < |s.files| && s.files[fid].Open? && 0 <= i && bend < |s.files[fid].lower|
    requires forall j :: i <= j <= bend ==> s.files[fid].lower[j].None?
    ensures DropCurrent(s, fid, i, bend) == s
    decreases bend - i + 1
  {
    if i <= bend { DropCurrentNothing(s, fid, i + 1, bend); }
  }

  /** What the copy-up of a regular file does: one lower file opened at c, the one at bstart closed. */
  lemma DelayedCopyupEffect(s: State, fid: int, copies: seq<bool>)
    requires 0 <= fid < |s.files| && OneLower(s.files[fid]) && |copies| == |s.branches|
    requires FirstCopy(copies, s.files[fid].bstart - 1) >= 0
    ensures var f := s.files[fid]; var b := f.bstart; var c := FirstCopy(copies, b - 1);
            var t := DelayedCopyup(s, fid, copies);
            && t == s.(branches := t.branches, files := t.files) && |t.branches| == |s.branches|
            && t.files == s.files[fid := f.(bstart := c, lower := f.lower[c := Some(s.branches[c].root)][b := None])]
            && forall k :: 0 <= k < |s.branches| ==>
                 t.branches[k] == s.branches[k].(count := s.branches[k].count + (if k == c then 1 else if k == b then -1 else 0))
  {
    var f := s.files[fid];
    var b := f.bstart;
    var c := FirstCopy(copies, b - 1);
    var m := MoveLeft(s, fid, c);
    var u := SetLower(if b < |s.branches| then BumpCount(m, b, -1) else m, fid, b, None);
    assert m.files[fid].lower == f.lower[c := Some(s.branches[c].root)];
    DropCurrentNothing(u, fid, b + 1, f.bend);
    assert DelayedCopyup(s, fid, copies) == u;
  }

  /** The delayed copy-up moves the file's one lower file to the nearest branch on the left that takes the copy,
      with one count more there and one less where it was; without such a branch nothing changes. */
  lemma DelayedCopyupMoves(s: State, fid: int, copies: seq<bool>)
    requires 0 <= fid < |s.files| && OneLower(s.files[fid]) && |copies| == |s.branches| && s.files[fid].bstart <= |s.branches|
    ensures var f := s.files[fid]; var t := DelayedCopyup(s, fid, copies);
            && ((forall c :: 0 <= c < f.bstart ==> !copies[c]) ==> t == s)
            && (forall c :: CopiesTo(copies, f.bstart, c) ==>
                  && t.files == s.files[fid := f.(bstart := c, lower := f.lower[c := Some(s.branches[c].root)][f.bstart := None])]
                  && |t.branches| == |s.branches|
                  && forall k :: 0 <= k < |s.branches| ==>
                       t.branches[k] == s.branches[k].(count := s.branches[k].count + (if k == c then 1 else if k == f.bstart then -1 else 0)))
  {
    FirstCopyIs(copies, s.files[fid].bstart);
    if FirstCopy(copies, s.files[fid].bstart - 1) >= 0 { DelayedCopyupEffect(s, fid, copies); }
  }

  lemma DelayedCopyupHolders(s: State, fid: int, copies: seq<bool>)
    requires 0 <= fid < |s.files| && OneLower(s.files[fid]) && |copies| == |s.branches|
    requires FirstCopy(copies, s.files[fid].bstart - 1) >= 0
    ensures var f := s.files[fid]; var t := DelayedCopyup(s, fid, copies);
            var new' := s.branches[FirstCopy(copies, f.bstart - 1)].root;
            forall r: Root :: Holders(t.files, r) == Holders(s.files, r) + (if r == new' then 1 else 0)
                                                      - (if r == f.lower[f.bstart].value then 1 else 0)
  {
    DelayedCopyupEffect(s, fid, copies);
    var c := FirstCopy(copies, s.files[fid].bstart - 1);
    var t := DelayedCopyup(s, fid, copies);
    var new' := s.branches[c].root;
    var old' := s.files[fid].lower[s.files[fid].bstart].value;
    forall r: Root
      ensures Holders(t.files, r) == Holders(s.files, r) + (if r == new' then 1 else 0) - (if r == old' then 1 else 0)
    {
      CopyupCounts(s.files, fid, c, new', r, 0);
    }
  }

  lemma DelayedCopyupFileOk(s: State, fid: int, copies: seq<bool>)
    requires FilesOk(s) && 0 <= fid < |s.files| && OneLower(s.files[fid]) && |copies| == |s.branches|
    requires var f := s.files[fid]; var c := FirstCopy(copies, f.bstart - 1);
             c >= 0 && Loc(s, f.generation, c) == c
    ensures FileOk(DelayedCopyup(s, fid, copies), DelayedCopyup(s, fid, copies).files[fid])
  {
    var f := s.files[fid];
    var c := FirstCopy(copies, f.bstart - 1);
    var t := DelayedCopyup(s, fid, copies);
    DelayedCopyupEffect(s, fid, copies);
    assert FileOk(s, f);
    hide DelayedCopyup, FilesOk, FirstCopy;
    assert f.generation <= s.generation && f.bend < |f.lower|;
    hide FileOk;
    assert t.files[fid] == f.(bstart := c, lower := f.lower[c := Some(s.branches[c].root)][f.bstart := None]);
    CopiedFileOk(t, f, c, s.branches[c].root);
  }

  lemma CopiedFileOk(t: State, f: FileSlot, c: int, r: Root)
    requires OneLower(f) && 0 <= c < f.bstart && f.generation <= t.generation && Located(t, f.generation, c, r)
    ensures FileOk(t, f.(bstart := c, lower := f.lower[c := Some(r)][f.bstart := None]))
  {
  }

  lemma DelayedCopyupFiles(s: State, fid: int, copies: seq<bool>)
    requires FilesOk(s) && 0 <= fid < |s.files| && OneLower(s.files[fid]) && |copies| == |s.branches|
    requires var f := s.files[fid]; var c := FirstCopy(copies, f.bstart - 1);
             c >= 0 && Loc(s, f.generation, c) == c
    ensures FilesOk(DelayedCopyup(s, fid, copies))
  {
    var t := DelayedCopyup(s, fid, copies);
    DelayedCopyupEffect(s, fid, copies);
    forall k | 0 <= k < |t.files| ensures FileOk(t, t.files[k]) {
      if k != fid {
        assert FileOk(s, s.files[k]);
        FileOkMoves(s, t, s.files[k]);
      } else {
        DelayedCopyupFileOk(s, fid, copies);
      }
    }
  }

  lemma DelayedCopyupCounts(s: State, fid: int, copies: seq<bool>)
    requires Inv(s) && 0 <= fid < |s.files| && OneLower(s.files[fid]) && |copies| == |s.branches|
    requires var f := s.files[fid]; FirstCopy(copies, f.bstart - 1) >= 0 && Loc(s, f.generation, f.bstart) == f.bstart
    ensures CountsOk(DelayedCopyup(s, fid, copies)) && SameBranches(s, DelayedCopyup(s, fid, copies))
  {
    var f := s.files[fid];
    var b := f.bstart;
    var t := DelayedCopyup(s, fid, copies);
    DelayedCopyupEffect(s, fid, copies);
    DelayedCopyupHolders(s, fid, copies);
    assert FileOk(s, f);
    assert Located(s, f.generation, b, f.lower[b].value);
    var c := FirstCopy(copies, b - 1);
    forall k | 0 <= k < |t.branches| ensures t.branches[k].count == Holders(t.files, t.branches[k].root) {
      assert s.branches[k].count == Holders(s.files, s.branches[k].root);
      assert s.branches[k].root == s.branches[b].root ==> k == b;
      assert s.branches[k].root == s.branches[c].root ==> k == c;
    }
  }

  lemma DelayedCopyupPutmaps(s: State, fid: int, copies: seq<bool>)
    requires PutmapsOk(s) && 0 <= fid < |s.files| && OneLower(s.files[fid]) && |copies| == |s.branches|
    requires FirstCopy(copies, s.files[fid].bstart - 1) >= 0
    ensures PutmapsOk(DelayedCopyup(s, fid, copies)) && (Prompt(s) ==> Prompt(DelayedCopyup(s, fid, copies)))
  {
    var t := DelayedCopyup(s, fid, copies);
    DelayedCopyupEffect(s, fid, copies);
    hide DelayedCopyup, FirstCopy, GenRefs, OneLower;
    forall k | 0 <= k < |t.putmaps|
      ensures t.putmaps[k] == s.putmaps[k] && GenRefs(t.files, t.firstPutmap + k) == GenRefs(s.files, s.firstPutmap + k)
      ensures PromptAt(t, k) <==> PromptAt(s, k)
    {
      DelayedCopyupGenRefs(s, fid, copies, s.firstPutmap + k);
    }
  }

  lemma DelayedCopyupGenRefs(s: State, fid: int, copies: seq<bool>, g: int)
    requires 0 <= fid < |s.files| && OneLower(s.files[fid]) && |copies| == |s.branches|
    requires FirstCopy(copies, s.files[fid].bstart - 1) >= 0
    ensures GenRefs(DelayedCopyup(s, fid, copies).files, g) == GenRefs(s.files, g)
  {
    DelayedCopyupEffect(s, fid, copies);
    var c := FirstCopy(copies, s.files[fid].bstart - 1);
    CopyupCounts(s.files, fid, c, s.branches[c].root, 0, g);
  }

  lemma DelayedCopyupKeeps(s: State, fid: int, copies: seq<bool>)
    requires Inv(s) && 0 <= fid < |s.files| && OneLower(s.files[fid]) && |copies| == |s.branches|
    requires var f := s.files[fid]; var c := FirstCopy(copies, f.bstart - 1);
             c >= 0 && Loc(s, f.generation, c) == c && Loc(s, f.generation, f.bstart) == f.bstart
    ensures var t := DelayedCopyup(s, fid, copies); Inv(t) && (Prompt(s) ==> Prompt(t)) && SameBranches(s, t)
  {
    DelayedCopyupFiles(s, fid, copies);
    DelayedCopyupCounts(s, fid, copies);
    DelayedCopyupPutmaps(s, fid, copies);
    DelayedCopyupEffect(s, fid, copies);
  }

  /** For a regular file the copy-up keeps the bookkeeping exactly when the generation of the file
      still finds both branches involved at their present indices. That always holds for a file of
      the current generation; it can fail for an unlinked file, which is not reopened first. */
  lemma DelayedCopyupKeepsIff(s: State, fid: int, copies: seq<bool>)
    requires Inv(s) && 0 <= fid < |s.files| && OneLower(s.files[fid]) && |copies| == |s.branches|
    ensures var f := s.files[fid]; var c := FirstCopy(copies, f.bstart - 1);
            Inv(DelayedCopyup(s, fid, copies)) <==>
              c < 0 || (Loc(s, f.generation, c) == c && Loc(s, f.generation, f.bstart) == f.bstart)
    ensures s.files[fid].generation == s.generation ==>
              Inv(DelayedCopyup(s, fid, copies)) && SameBranches(s, DelayedCopyup(s, fid, copies))
    ensures Inv(DelayedCopyup(s, fid, copies)) && Prompt(s) ==> Prompt(DelayedCopyup(s, fid, copies))
  {
    var f := s.files[fid];
    var b := f.bstart;
    var c := FirstCopy(copies, b - 1);
    if c >= 0 {
      if Loc(s, f.generation, c) == c && Loc(s, f.generation, b) == b {
        DelayedCopyupKeeps(s, fid, copies);
      } else {
        DelayedCopyupBreaks(s, fid, copies);
      }
    }
  }

  lemma DelayedCopyupBreaks(s: State, fid: int, copies: seq<bool>)
    requires Inv(s) && 0 <= fid < |s.files| && OneLower(s.files[fid]) && |copies| == |s.branches|
    requires var f := s.files[fid]; var c := FirstCopy(copies, f.bstart - 1);
             c >= 0 && !(Loc(s, f.generation, c) == c && Loc(s, f.generation, f.bstart) == f.bstart)
    ensures !Inv(DelayedCopyup(s, fid, copies))
  {
    var f := s.files[fid];
    var c := FirstCopy(copies, f.bstart - 1);
    if Loc(s, f.generation, c) != c { DelayedCopyupMisplaces(s, fid, copies); } else { DelayedCopyupMiscounts(s, fid, copies); }
  }

  /** The lower file of the copy is looked for elsewhere when its index means another branch. */
  lemma DelayedCopyupMisplaces(s: State, fid: int, copies: seq<bool>)
    requires Shape(s) && 0 <= fid < |s.files| && OneLower(s.files[fid]) && |copies| == |s.branches|
    requires var f := s.files[fid]; var c := FirstCopy(copies, f.bstart - 1); c >= 0 && Loc(s, f.generation, c) != c
    ensures !FilesOk(DelayedCopyup(s, fid, copies))
  {
    var f := s.files[fid];
    var c := FirstCopy(copies, f.bstart - 1);
    var t := DelayedCopyup(s, fid, copies);
    DelayedCopyupEffect(s, fid, copies);
    hide DelayedCopyup;
    assert t.files[fid].lower[c] == Some(s.branches[c].root);
    assert !Located(t, f.generation, c, s.branches[c].root);
    assert !FileOk(t, t.files[fid]);
  }

  /** The count of the branch the file leaves stays up when that branch has moved. */
  lemma DelayedCopyupMiscounts(s: State, fid: int, copies: seq<bool>)
    requires Inv(s) && 0 <= fid < |s.files| && OneLower(s.files[fid]) && |copies| == |s.branches|
    requires var f := s.files[fid]; var c := FirstCopy(copies, f.bstart - 1);
             c >= 0 && Loc(s, f.generation, f.bstart) != f.bstart
    ensures !CountsOk(DelayedCopyup(s, fid, copies))
  {
    var f := s.files[fid];
    var b := f.bstart;
    var t := DelayedCopyup(s, fid, copies);
    DelayedCopyupEffect(s, fid, copies);
    DelayedCopyupHolders(s, fid, copies);
    assert FileOk(s, f);
    assert Located(s, f.generation, b, f.lower[b].value);
    var l := Loc(s, f.generation, b);
    assert s.branches[l].count == Holders(s.files, s.branches[l].root);
    assert t.branches[l].count != Holders(t.files, t.branches[l].root);
  }

  lemma CopyupCounts(files: seq<FileSlot>, fid: int, c: int, new': Root, r: Root, g: int)
    requires 0 <= fid < |files| && OneLower(files[fid]) && 0 <= c < files[fid].bstart
    ensures var f := files[fid]; var b := f.bstart;
            var t := files[fid := f.(bstart := c, lower := f.lower[c := Some(new')][b := None])];
            && Holders(t, r) == Holders(files, r) + (if r == new' then 1 else 0) - (if r == f.lower[b].value then 1 else 0)
            && GenRefs(t, g) == GenRefs(files, g)
  {
    var f := files[fid];
    var b := f.bstart;
    LowerUpdate(f.lower, c, Some(new'), r);
    LowerUpdate(f.lower[c := Some(new')], b, None, r);
    FilesUpdate(files, fid, f.(bstart := c, lower := f.lower[c := Some(new')][b := None]), r, g);
  }

  // ---------- Runs ----------

  datatype Step =
    | DoOpen(fid: int, h: Hidden, fails: seq<bool>, truncates: bool, copies: seq<bool>)
    | DoRelease(fid: int)
    | DoRevalidate(fid: int, h: Hidden, fails: seq<bool>, copyFirst: bool, copies: seq<bool>)
    | DoCopyup(fid: int, copies: seq<bool>)
    | DoIncgen
    | DoAdd(k: int, root: Root, perms: bv32, overlap: (Root, Root) -> bool, beyond: int -> int)
    | DoDel(k: int, beyond: int -> int)
    | DoRdwr(k: int, perms: bv32)

  ghost predicate Possible(s: State, step: Step) {
    match step
    case DoOpen(fid, h, fails, _, copies) => FreeSlot(s, fid) && HiddenOk(s, h) && |fails| == |copies| == |s.branches|
    case DoRelease(fid) => 0 <= fid < |s.files| && s.files[fid].Open?
    case DoRevalidate(fid, h, fails, _, copies) =>
      0 <= fid < |s.files| && s.files[fid].Open? && HiddenOk(s, h) && |fails| == |copies| == |s.branches|
    case DoCopyup(fid, copies) => 0 <= fid < |s.files| && OneLower(s.files[fid]) && |copies| == |s.branches|
    case DoIncgen => true
    case DoAdd(_, _, _, overlap, _) => forall r :: overlap(r, r)
    case DoDel(_, _) => true
    case DoRdwr(_, _) => true
  }

  /** The conditions that the three exact-condition lemmas found necessary. */
  ghost predicate Sound(s: State, step: Step)
    requires Possible(s, step)
  {
    match step
    case DoRevalidate(fid, h, fails, copyFirst, _) =>
      !NeedsReopen(s, fid, h) || (copyFirst && !h.isDir) || NoneFails(h, fails)
    case DoCopyup(fid, copies) =>
      var f := s.files[fid];
      var c := FirstCopy(copies, f.bstart - 1);
      c < 0 || (Loc(s, f.generation, c) == c && Loc(s, f.generation, f.bstart) == f.bstart)
    case DoRdwr(k, perms) => 0 <= k <= |s.branches| && GoodPerms(perms)
    case _ => true
  }

  /** Whether the step retires the current generation through an ioctl, which its caller's own
      file, revalidated first, holds a reference of. */
  ghost predicate CallerCurrent(s: State, step: Step) {
    step.DoIncgen? || step.DoAdd? || step.DoRdwr? ==> GenRefs(s.files, s.generation) > 0
  }

  ghost function After(s: State, step: Step): State
    requires Inv(s) && Possible(s, step)
  {
    match step
    case DoOpen(fid, h, fails, truncates, copies) => OpenFile(s, fid, h, fails, truncates, copies).0
    case DoRelease(fid) => Release(s, fid)
    case DoRevalidate(fid, h, fails, copyFirst, copies) => Revalidate(s, fid, h, fails, copyFirst, copies).0
    case DoCopyup(fid, copies) => DelayedCopyup(s, fid, copies)
    case DoIncgen => Advance(s)
    case DoAdd(k, root, perms, overlap, beyond) => AddBranch(s, k, root, perms, overlap, beyond)
    case DoDel(k, beyond) => DelBranch(s, k, beyond)
    case DoRdwr(k, perms) => RdwrBranch(s, k, perms)
  }

  lemma FileStepKeepsIff(s: State, step: Step)
    requires Inv(s) && Possible(s, step) && (step.DoOpen? || step.DoRelease? || step.DoRevalidate? || step.DoCopyup?)
    ensures Inv(After(s, step)) <==> Sound(s, step)
    ensures Prompt(s) && Sound(s, step) ==> Prompt(After(s, step))
  {
    match step
    case DoOpen(fid, h, fails, truncates, copies) => OpenFileKeeps(s, fid, h, fails, truncates, copies);
    case DoRelease(fid) => ReleaseKeeps(s, fid);
    case DoRevalidate(fid, h, fails, copyFirst, copies) => RevalidateKeepsIff(s, fid, h, fails, copyFirst, copies);
    case DoCopyup(fid, copies) => DelayedCopyupKeepsIff(s, fid, copies);
  }

  lemma AdminStepKeepsIff(s: State, step: Step)
    requires Inv(s) && Possible(s, step) && (step.DoIncgen? || step.DoAdd? || step.DoDel? || step.DoRdwr?)
    ensures Inv(After(s, step)) <==> Sound(s, step)
    ensures Prompt(s) && Sound(s, step) && CallerCurrent(s, step) ==> Prompt(After(s, step))
  {
    match step
    case DoIncgen => AdvanceKeeps(s); IncgenPrompt(s);
    case DoAdd(k, root, perms, overlap, beyond) => AddBranchKeeps(s, k, root, perms, overlap, beyond);
    case DoDel(k, beyond) => DelBranchKeeps(s, k, beyond);
    case DoRdwr(k, perms) =>
      RdwrBranchKeepsIff(s, k, perms);
      RdwrBranchPrompt(s, k, perms);
  }

  /** A possible step keeps the invariant if and only if it meets its condition. */
  lemma StepKeepsIff(s: State, step: Step)
    requires Inv(s) && Possible(s, step)
    ensures Inv(After(s, step)) <==> Sound(s, step)
    ensures Prompt(s) && Sound(s, step) && CallerCurrent(s, step) ==> Prompt(After(s, step))
  {
    if step.DoOpen? || step.DoRelease? || step.DoRevalidate? || step.DoCopyup? {
      FileStepKeepsIff(s, step);
    } else {
      AdminStepKeepsIff(s, step);
    }
  }

  /** t is reached from s by these steps, each possible and meeting its condition. */
  ghost predicate Reaches(s: State, steps: seq<Step>, t: State)
    decreases |steps|
  {
    if steps == [] then s == t
    else
      Inv(s) && Possible(s, steps[0]) && Sound(s, steps[0]) && CallerCurrent(s, steps[0])
      && Reaches(After(s, steps[0]), steps[1..], t)
  }

  /** A fresh mount: distinct branch roots, generation 1, no putmap, no open file. */
  ghost predicate Mounted(s: State) {
    && |s.branches| >= 1 && s.generation == 1 && s.firstPutmap == 0 && s.lastPutmap == 0 && s.putmaps == [] && s.files == []
    && DistinctRoots(s.branches)
    && (forall b :: 0 <= b < |s.branches| ==> s.branches[b].count == 0)
  }

  lemma {:induction false} RunKeeps(s: State, steps: seq<Step>, t: State)
    requires Inv(s) && Prompt(s) && Reaches(s, steps, t)
    ensures Inv(t) && Prompt(t)
    decreases |steps|
  {
    if steps != [] {
      StepKeepsIff(s, steps[0]);
      RunKeeps(After(s, steps[0]), steps[1..], t);
    }
  }

  /** Open lower files that the putmaps place at branch b, found without looking at their roots. */
  function PlacedLower(s: State, g: int, lower: seq<Option<Root>>, b: int): nat {
    if lower == [] then 0
    else PlacedLower(s, g, lower[..|lower| - 1], b)
         + (if lower[|lower| - 1].Some? && Loc(s, g, |lower| - 1) == b then 1 else 0)
  }

  function Placed(s: State, files: seq<FileSlot>, b: int): nat {
    if files == [] then 0
    else Placed(s, files[..|files| - 1], b)
         + (var f := files[|files| - 1]; if f.Open? then PlacedLower(s, f.generation, f.lower, b) else 0)
  }

  lemma {:induction false} PlacedLowerIsHolds(s: State, g: int, lower: seq<Option<Root>>, b: int)
    requires Shape(s) && 0 <= b < |s.branches|
    requires forall i :: 0 <= i < |lower| && lower[i].Some? ==> Located(s, g, i, lower[i].value)
    ensures PlacedLower(s, g, lower, b) == Holds(lower, s.branches[b].root)
  {
    if lower != [] {
      var n := |lower| - 1;
      PlacedLowerIsHolds(s, g, lower[..n], b);
      if lower[n].Some? { assert Located(s, g, n, lower[n].value); }
    }
  }

  lemma {:induction false} PlacedIsHolders(s: State, files: seq<FileSlot>, b: int)
    requires Shape(s) && 0 <= b < |s.branches|
    requires forall k :: 0 <= k < |files| ==> FileOk(s, files[k])
    ensures Placed(s, files, b) == Holders(files, s.branches[b].root)
  {
    if files != [] {
      var f := files[|files| - 1];
      PlacedIsHolders(s, files[..|files| - 1], b);
      assert FileOk(s, f);
      if f.Open? { PlacedLowerIsHolds(s, f.generation, f.lower, b); }
    }
  }

  /** In every reachable state each branch counter is the number of open lower files that the
      putmaps place at that branch, and every putmap counts the references of its generation,
      is there exactly as long as there is one, and the newest one belongs to the last generation. */
  lemma ReachableCounts(s: State, steps: seq<Step>, t: State)
    requires Mounted(s) && Reaches(s, steps, t)
    ensures forall b :: 0 <= b < |t.branches| ==> t.branches[b].count == Placed(t, t.files, b)
    ensures forall k :: 0 <= k < |t.putmaps| ==>
              if t.putmaps[k].Some? then t.putmaps[k].value.count == GenRefs(t.files, t.firstPutmap + k) > 0
              else GenRefs(t.files, t.firstPutmap + k) == 0
    ensures t.firstPutmap == 0 || (t.lastPutmap == t.generation - 1 && |t.putmaps| == t.lastPutmap - t.firstPutmap + 1)
  {
    RunKeeps(s, steps, t);
    forall b | 0 <= b < |t.branches| ensures t.branches[b].count == Placed(t, t.files, b) { PlacedIsHolders(t, t.files, b); }
    assert forall k :: 0 <= k < |t.putmaps| ==> (t.putmaps[k].None? || t.putmaps[k].Some?) && PromptAt(t, k);
  }

  /** A reference taken on a branch is found at that branch whatever is added, removed or retired
      until the file is touched again. */
  lemma ReferenceFollowsBranch(s: State, steps: seq<Step>, t: State, fid: int, i: int)
    requires Inv(s) && Prompt(s) && Reaches(s, steps, t)
    requires LiveRef(s, fid, i) && fid < |t.files| && t.files[fid] == s.files[fid]
    ensures var g := s.files[fid].generation;
            && 0 <= Loc(s, g, i) < |s.branches| && 0 <= Loc(t, g, i) < |t.branches|
            && t.branches[Loc(t, g, i)].root == s.branches[Loc(s, g, i)].root
  {
    RunKeeps(s, steps, t);
    assert FileOk(s, s.files[fid]) && FileOk(t, t.files[fid]);
    assert Located(s, s.files[fid].generation, i, s.files[fid].lower[i].value);
    assert Located(t, s.files[fid].generation, i, s.files[fid].lower[i].value);
  }

  /** Once every file is closed all counters are zero and no putmap is left: the unmount check passes. */
  lemma UnmountFindsNoLeak(s: State, steps: seq<Step>, t: State)
    requires Mounted(s) && Reaches(s, steps, t)
    requires forall k :: 0 <= k < |t.files| ==> t.files[k].Closed?
    ensures forall b :: 0 <= b < |t.branches| ==> t.branches[b].count == 0
    ensures forall k :: 0 <= k < |t.putmaps| ==> t.putmaps[k].None?
  {
    RunKeeps(s, steps, t);
    forall b | 0 <= b < |t.branches| ensures t.branches[b].count == 0 { AllClosed(t.files, t.branches[b].root); }
    forall k | 0 <= k < |t.putmaps| ensures t.putmaps[k].None? {
      NoGenRefs(t.files, t.firstPutmap + k);
      assert PromptAt(t, k);
    }
  }

  lemma {:induction false} AllClosed(files: seq<FileSlot>, r: Root)
    requires forall k :: 0 <= k < |files| ==> files[k].Closed?
    ensures Holders(files, r) == 0
  {
    if files != [] { AllClosed(files[..|files| - 1], r); }
  }

  // ---------- Runs that end badly ----------

  /** A file left of which a branch is inserted is copied up on its old indices: whatever the copy goes to,
      the bookkeeping is wrong afterwards. */
  lemma StaleCopyupBreaks(s: State, fid: int, k: int, root: Root, perms: bv32, overlap: (Root, Root) -> bool, beyond: int -> int, copies: seq<bool>)
    requires Inv(s) && (forall r :: overlap(r, r)) && 0 <= fid < |s.files| && OneLower(s.files[fid])
    requires s.files[fid].generation == s.generation && k <= s.files[fid].bstart
    requires AddOutcome(s, k, root, perms, overlap) == Success
    requires |copies| == |s.branches| + 1 && FirstCopy(copies, s.files[fid].bstart - 1) >= 0
    ensures var t := AddBranch(s, k, root, perms, overlap, beyond);
            Inv(t) && Possible(t, DoCopyup(fid, copies)) && t.files == s.files && !Inv(After(t, DoCopyup(fid, copies)))
  {
    AddBranchKeeps(s, k, root, perms, overlap, beyond);
    MovedRight(s, AddBranch(s, k, root, perms, overlap, beyond), fid, k, Branch(root, 0, perms));
    DelayedCopyupBreaks(AddBranch(s, k, root, perms, overlap, beyond), fid, copies);
  }

  /** After an insertion at or left of its branch, the reference of a file is found one branch further right. */
  lemma MovedRight(s: State, t: State, fid: int, k: int, b: Branch)
    requires Inv(s) && Inv(t) && 0 <= fid < |s.files| && t.files == s.files && OneLower(s.files[fid])
    requires s.files[fid].generation == s.generation && 0 <= k <= s.files[fid].bstart && k <= |s.branches|
    requires t.branches == Inserted(s.branches, k, b)
    ensures Loc(t, s.generation, s.files[fid].bstart) == s.files[fid].bstart + 1
  {
    var f := s.files[fid];
    assert FileOk(s, f) && FileOk(t, f);
    assert Located(s, f.generation, f.bstart, f.lower[f.bstart].value);
    assert Located(t, f.generation, f.bstart, f.lower[f.bstart].value);
    assert t.branches[f.bstart + 1].root == s.branches[f.bstart].root && DistinctRoots(t.branches);
  }

  /** A mount of n branches, the leftmost with root 10, the others following. */
  function FreshMount(n: nat): (s: State)
    requires n > 0
    ensures Mounted(s) && Inv(s) && Prompt(s) && |s.branches| == n
  {
    State(seq(n, i requires 0 <= i < n => Branch(10 + i, 0, 6)), 1, 0, 0, [], [])
  }

  /** Its first file, opened in branch b. */
  lemma FirstOpen(n: nat, b: nat) returns (step: Step)
    requires b < n
    ensures var s := FreshMount(n);
            && Possible(s, step) && Sound(s, step) && CallerCurrent(s, step)
            && var t := After(s, step);
               && Inv(t) && Prompt(t) && t.generation == 1 && |t.branches| == n && |t.files| == 1 && GenRefs(t.files, 1) > 0
               && (forall i :: 0 <= i < n ==> t.branches[i].root == 10 + i)
               && t.files[0] == Open(1, b, b, Blank(n)[b := Some(10 + b)])
  {
    var s := FreshMount(n);
    var h, none := Hidden(b, b, seq(n, i => i == b), false), seq(n, _ => false);
    step := DoOpen(0, h, none, false, none);
    var t := After(s, step);
    assert t.files[0] == Open(1, b, b, Blank(n)[b := Some(10 + b)]) && Inv(t) && Prompt(t) && SameBranches(s, t) && |t.files| == 1 by {
      OpenFileKeeps(s, 0, h, none, false, none);
      OpenFileOpens(s, 0, h, none, false, none);
      assert t.files[0].lower == Blank(n)[b := Some(10 + b)];
    }
    LiveRefCounts(t, 0, b);
  }

  lemma Ran(s: State, first: Step, second: Step)
    requires Inv(s) && Prompt(s) && Possible(s, first) && Sound(s, first) && CallerCurrent(s, first)
    requires var t := After(s, first);
             Inv(t) && Possible(t, second) && Sound(t, second) && CallerCurrent(t, second)
    ensures Reaches(s, [first, second], After(After(s, first), second))
  {
    var t := After(s, first);
    var u := After(t, second);
    assert [first, second][1..] == [second] && [second][1..] == [];
    assert Reaches(u, [], u);
    assert Reaches(t, [second], u);
  }

  /** A mount from which these steps lead to a good state, and one more possible step to a bad one. */
  ghost predicate RunBreaks(s: State, steps: seq<Step>, t: State, last: Step) {
    Mounted(s) && Reaches(s, steps, t) && Inv(t) && Possible(t, last) && !Inv(After(t, last))
  }

  /** The file of FirstOpen in the second branch of two, and a third branch that can be added in front. */
  lemma CanAddInFront(a: State, overlap: (Root, Root) -> bool, beyond: int -> int)
    requires |a.branches| == 2 && a.branches[0].root == 10 && a.branches[1].root == 11 && forall x, y :: overlap(x, y) <==> x == y
    requires a.generation == 1 && GenRefs(a.files, 1) > 0 && |a.files| == 1 && a.files[0] == Open(1, 1, 1, Blank(2)[1 := Some(11)])
    ensures OneLower(a.files[0]) && AddOutcome(a, 0, 20, 6, overlap) == Success && FirstCopy([true, true, true], 0) == 0
    ensures var step := DoAdd(0, 20, 6, overlap, beyond); Possible(a, step) && Sound(a, step) && CallerCurrent(a, step)
  {
    assert GoodPerms(6);
  }

  /** Reached from a mount: a file is open in the second branch, a branch is added in front, and the file,
      unlinked and so never reopened, is copied up. */
  lemma StaleCopyupReached() returns (steps: seq<Step>, t: State, last: Step)
    ensures RunBreaks(FreshMount(2), steps, t, last) && last.DoCopyup?
  {
    var first := FirstOpen(2, 1);
    var a := After(FreshMount(2), first);
    var overlap, beyond := (x: Root, y: Root) => x == y, (x: int) => x;
    CanAddInFront(a, overlap, beyond);
    hide *;
    StaleCopyupBreaks(a, 0, 0, 20, 6, overlap, beyond, [true, true, true]);
    var second := DoAdd(0, 20, 6, overlap, beyond);
    AfterAdd(a, 0, 20, 6, overlap, beyond);
    steps, t, last := [first, second], AddBranch(a, 0, 20, 6, overlap, beyond), DoCopyup(0, [true, true, true]);
    Ran(FreshMount(2), first, second);
    Broken(FreshMount(2), steps, t, last);
  }

  lemma AfterAdd(s: State, k: int, root: Root, perms: bv32, overlap: (Root, Root) -> bool, beyond: int -> int)
    requires Inv(s) && Possible(s, DoAdd(k, root, perms, overlap, beyond))
    ensures After(s, DoAdd(k, root, perms, overlap, beyond)) == AddBranch(s, k, root, perms, overlap, beyond)
    ensures Sound(s, DoAdd(k, root, perms, overlap, beyond))
  {
  }

  lemma Broken(s: State, steps: seq<Step>, t: State, last: Step)
    requires Mounted(s) && Reaches(s, steps, t) && Inv(t) && Possible(t, last) && !Inv(After(t, last))
    ensures RunBreaks(s, steps, t, last)
  {
  }

  /** Reached from a mount: a file is open, the generation moves on, and reopening its lower file fails. */
  lemma FailedReopenReached() returns (steps: seq<Step>, t: State, last: Step)
    ensures RunBreaks(FreshMount(1), steps, t, last) && last.DoRevalidate?
  {
    var first := FirstOpen(1, 0);
    var a := After(FreshMount(1), first);
    AdminStepKeepsIff(a, DoIncgen);
    Ran(FreshMount(1), first, DoIncgen);
    var h := Hidden(0, 0, [true], false);
    steps, t, last := [first, DoIncgen], After(a, DoIncgen), DoRevalidate(0, h, [true], false, [false]);
    assert Wanted(h, 0);
    FileStepKeepsIff(t, last);
  }

  /** In a fresh mount: a mode change with modes that are refused breaks the bookkeeping, and one of a branch
      that does not exist is not refused. */
  lemma LateTestReached() returns (t: State, last: Step)
    ensures Mounted(t) && Inv(t) && Possible(t, last) && last.DoRdwr? && !Inv(After(t, last))
    ensures RdwrOutcome(t, last.k, last.perms) == InvalidArgument && RdwrOutcome(t, |t.branches|, 6) == WildWrite
  {
    t, last := FreshMount(1), DoRdwr(0, 0);
    assert !GoodPerms(0) && GoodPerms(6);
    AdminStepKeepsIff(t, last);
  }
}
