/** The steps of the reference protocol as functions on the bookkeeping state, and the proof that
    each of them keeps the invariant. BranchManager carries the same steps out in place. */
module BranchSteps {
  import opened Options
  import opened BranchState

  // ---------- Taking and dropping one reference ----------

  function BumpCount(s: State, b: int, delta: int): State
    requires 0 <= b < |s.branches|
  {
    s.(branches := s.branches[b := s.branches[b].(count := s.branches[b].count + delta)])
  }

  function SetLower(s: State, fid: int, i: int, v: Option<Root>): State
    requires 0 <= fid < |s.files| && s.files[fid].Open? && 0 <= i < |s.files[fid].lower|
  {
    s.(files := s.files[fid := s.files[fid].(lower := s.files[fid].lower[i := v])])
  }

  /** branchget on b, and the lower file it belongs to stored in the file's slot b. */
  function GetRef(s: State, fid: int, b: int): State
    requires 0 <= fid < |s.files| && s.files[fid].Open? && 0 <= b < |s.files[fid].lower| && b < |s.branches|
  {
    SetLower(BumpCount(s, b, 1), fid, b, Some(s.branches[b].root))
  }

  /** The checks branchput_gen makes before it uses a putmap. */
  ghost predicate PutChecks(s: State, g: int, i: int) {
    if g == s.generation then 0 <= i < |s.branches|
    else
      && s.firstPutmap <= g <= s.lastPutmap
      && |s.putmaps| == s.lastPutmap - s.firstPutmap + 1
      && s.putmaps[g - s.firstPutmap].Some?
      && 0 <= i < |s.putmaps[g - s.firstPutmap].value.slots|
      && 0 <= s.putmaps[g - s.firstPutmap].value.slots[i] < |s.branches|
  }

  ghost function PutGen(s: State, g: int, i: int): State
    requires PutChecks(s, g, i)
  {
    if g == s.generation then BumpCount(s, i, -1)
    else
      var k := g - s.firstPutmap;
      var pm := s.putmaps[k].value;
      var left := pm.count - 1;
      BumpCount(s, pm.slots[i], -1)
        .(putmaps := s.putmaps[k := if left == 0 then None else Some(pm.(count := left))])
  }

  /** branchput_gen for slot i of file fid, and the lower file closed. */
  ghost function DropRef(s: State, fid: int, i: int): State
    requires LiveRef(s, fid, i) && PutChecks(s, s.files[fid].generation, i)
  {
    SetLower(PutGen(s, s.files[fid].generation, i), fid, i, None)
  }

  /** None of branchput_gen's BUG_ON checks fires on a live reference, and the counter it
      decrements is the one of the branch the lower file was opened on. */
  lemma LiveRefPassesChecks(s: State, fid: int, i: int)
    requires Inv(s) && LiveRef(s, fid, i)
    ensures PutChecks(s, s.files[fid].generation, i)
    ensures var l := Loc(s, s.files[fid].generation, i);
            s.branches[l].root == s.files[fid].lower[i].value && s.branches[l].count >= 1
            && PutGen(s, s.files[fid].generation, i).branches == s.branches[l := s.branches[l].(count := s.branches[l].count - 1)]
  {
    assert FileOk(s, s.files[fid]);
    assert Located(s, s.files[fid].generation, i, s.files[fid].lower[i].value);
    LiveRefCounts(s, fid, i);
  }

  lemma SetLowerCounts(s: State, fid: int, i: int, v: Option<Root>, r: Root, g: int)
    requires 0 <= fid < |s.files| && s.files[fid].Open? && 0 <= i < |s.files[fid].lower|
    ensures var f := s.files[fid]; var t := SetLower(s, fid, i, v);
            && Holders(t.files, r) == Holders(s.files, r) - (if f.lower[i] == Some(r) then 1 else 0) + (if v == Some(r) then 1 else 0)
            && GenRefs(t.files, g) == GenRefs(s.files, g)
                 + (if g == f.generation then (if v.Some? then 1 else 0) - (if f.lower[i].Some? then 1 else 0) else 0)
  {
    LowerUpdate(s.files[fid].lower, i, v, r);
    FilesUpdate(s.files, fid, s.files[fid].(lower := s.files[fid].lower[i := v]), r, g);
  }

  lemma GetRefKeeps(s: State, fid: int, b: int)
    requires Inv(s) && 0 <= fid < |s.files| && s.files[fid].Open?
    requires s.files[fid].generation == s.generation
    requires 0 <= b < |s.files[fid].lower| && b < |s.branches| && s.files[fid].lower[b].None?
    requires s.files[fid].bstart <= b <= s.files[fid].bend
    ensures Inv(GetRef(s, fid, b))
    ensures Prompt(s) ==> Prompt(GetRef(s, fid, b))
  {
    var t := GetRef(s, fid, b);
    forall c | 0 <= c < |t.branches|
      ensures t.branches[c].count == Holders(t.files, t.branches[c].root)
    {
      SetLowerCounts(s, fid, b, Some(s.branches[b].root), s.branches[c].root, 0);
    }
    forall k | 0 <= k < |t.putmaps|
      ensures t.putmaps[k] == s.putmaps[k] && GenRefs(t.files, t.firstPutmap + k) == GenRefs(s.files, s.firstPutmap + k)
      ensures PromptAt(t, k) <==> PromptAt(s, k)
    {
      SetLowerCounts(s, fid, b, Some(s.branches[b].root), 0, s.firstPutmap + k);
    }
    forall k | 0 <= k < |t.files|
      ensures FileOk(t, t.files[k])
    {
      assert FileOk(s, s.files[k]);
      FileOkMoves(s, t, s.files[k]);
    }
  }

  /** Changing counters only leaves every location as it is. */
  lemma FileOkMoves(s: State, t: State, f: FileSlot)
    requires FileOk(s, f)
    requires t.generation == s.generation && t.firstPutmap == s.firstPutmap && t.putmaps == s.putmaps
    requires |t.branches| == |s.branches| && forall b :: 0 <= b < |s.branches| ==> t.branches[b].root == s.branches[b].root
    ensures FileOk(t, f)
  {
    if f.Open? {
      forall i | 0 <= i < |f.lower| && f.lower[i].Some?
        ensures f.bstart <= i <= f.bend && Located(t, f.generation, i, f.lower[i].value)
      {
        assert Located(s, f.generation, i, f.lower[i].value);
      }
    }
  }

  lemma DropRefCounts(s: State, fid: int, i: int)
    requires Inv(s) && LiveRef(s, fid, i) && PutChecks(s, s.files[fid].generation, i)
    ensures CountsOk(DropRef(s, fid, i))
  {
    LiveRefPassesChecks(s, fid, i);
    var t := DropRef(s, fid, i);
    forall c | 0 <= c < |t.branches|
      ensures t.branches[c].count == Holders(t.files, t.branches[c].root)
    {
      SetLowerCounts(s, fid, i, None, s.branches[c].root, 0);
    }
  }

  lemma DropRefPutmaps(s: State, fid: int, i: int)
    requires ListShape(s) && PutmapsOk(s) && LiveRef(s, fid, i) && PutChecks(s, s.files[fid].generation, i)
    requires s.files[fid].generation == s.generation ==> s.firstPutmap + |s.putmaps| <= s.generation
    ensures PutmapsOk(DropRef(s, fid, i)) && (Prompt(s) ==> Prompt(DropRef(s, fid, i)))
  {
    var t := DropRef(s, fid, i);
    forall k | 0 <= k < |t.putmaps|
      ensures t.putmaps[k].Some? ==> t.putmaps[k].value.count == GenRefs(t.files, t.firstPutmap + k)
      ensures Prompt(s) ==> PromptAt(t, k)
    {
      DropRefPutmap(s, fid, i, k);
    }
  }

  lemma DropRefPutmap(s: State, fid: int, i: int, k: int)
    requires ListShape(s) && PutmapsOk(s) && LiveRef(s, fid, i) && PutChecks(s, s.files[fid].generation, i)
    requires s.files[fid].generation == s.generation ==> s.firstPutmap + |s.putmaps| <= s.generation
    requires 0 <= k < |s.putmaps|
    ensures var t := DropRef(s, fid, i);
            && |t.putmaps| == |s.putmaps| && t.firstPutmap == s.firstPutmap
            && (t.putmaps[k].Some? ==> t.putmaps[k].value.count == GenRefs(t.files, t.firstPutmap + k))
            && (PromptAt(s, k) ==> PromptAt(t, k))
  {
    var g := s.files[fid].generation;
    var t := DropRef(s, fid, i);
    SetLowerCounts(s, fid, i, None, 0, s.firstPutmap + k);
    assert s.putmaps[k].Some? ==> s.putmaps[k].value.count == GenRefs(s.files, s.firstPutmap + k);
    hide PutmapsOk, GenRefs, ListShape;
    assert GenRefs(t.files, t.firstPutmap + k) == GenRefs(s.files, s.firstPutmap + k) - (if s.firstPutmap + k == g then 1 else 0);
  }

  lemma DropRefKeeps(s: State, fid: int, i: int)
    requires Inv(s) && LiveRef(s, fid, i) && PutChecks(s, s.files[fid].generation, i)
    ensures Inv(DropRef(s, fid, i))
    ensures Prompt(s) ==> Prompt(DropRef(s, fid, i))
  {
    var t := DropRef(s, fid, i);
    DropRefCounts(s, fid, i);
    DropRefPutmaps(s, fid, i);
    forall k | 0 <= k < |t.files|
      ensures FileOk(t, t.files[k])
    {
      DropRefFileOk(s, fid, i, k);
    }
  }

  lemma DropRefFileOk(s: State, fid: int, i: int, k: int)
    requires Inv(s) && LiveRef(s, fid, i) && PutChecks(s, s.files[fid].generation, i)
    requires 0 <= k < |s.files|
    ensures var t := DropRef(s, fid, i); FileOk(t, t.files[k])
  {
    var t := DropRef(s, fid, i);
    var f := s.files[fid];
    var h := t.files[k];
    assert FileOk(s, s.files[k]);
    if h.Open? {
      forall j | 0 <= j < |h.lower| && h.lower[j].Some?
        ensures h.bstart <= j <= h.bend && Located(t, h.generation, j, h.lower[j].value)
      {
        assert LiveRef(s, k, j) && Located(s, h.generation, j, h.lower[j].value);
        if f.generation != s.generation && h.generation == f.generation {
          // The putmap is still there: this reference is counted in it besides the dropped one.
          SetLowerCounts(s, fid, i, None, 0, f.generation);
          assert LiveRef(t, k, j);
          LiveRefCounts(t, k, j);
          assert s.putmaps[f.generation - s.firstPutmap].value.count == GenRefs(s.files, s.firstPutmap + (f.generation - s.firstPutmap));
        }
      }
    }
  }

  // ---------- Retiring a generation ----------

  function DeadPrefix(putmaps: seq<Option<Putmap>>): (n: nat)
    ensures n <= |putmaps|
    ensures forall k :: 0 <= k < n ==> putmaps[k].None?
    ensures n < |putmaps| ==> putmaps[n].Some?
  {
    if putmaps == [] || putmaps[0].Some? then 0 else 1 + DeadPrefix(putmaps[1..])
  }

  function Identity(n: nat): seq<int> { seq(n, i => i) }

  /** The list newputmap prepares: dead putmaps at its front are gone, one slot is added at its end. */
  function MakeRoom(s: State): (r: State)
    ensures r.putmaps != []
  {
    if s.firstPutmap == 0 then
      s.(firstPutmap := 1, lastPutmap := 1, putmaps := [None])
    else
      var dead := DeadPrefix(s.putmaps);
      s.(firstPutmap := s.firstPutmap + dead, lastPutmap := s.lastPutmap + 1, putmaps := s.putmaps[dead..] + [None])
  }

  /** newputmap: the new slot gets a putmap for the current generation. */
  function NewPutmap(s: State): State {
    var r := MakeRoom(s);
    var n := |r.putmaps| - 1;
    var pm := Putmap(Identity(|s.branches|), TotalCount(s.branches) - LiveCount(r.putmaps[..n]));
    r.(putmaps := r.putmaps[n := Some(pm)])
  }

  /** newputmap followed by the generation increment: all that incgen does. */
  function Advance(s: State): State {
    NewPutmap(s).(generation := s.generation + 1)
  }

  lemma {:induction false} LiveCountDead(putmaps: seq<Option<Putmap>>, n: nat)
    requires n <= |putmaps| && forall k :: 0 <= k < n ==> putmaps[k].None?
    ensures LiveCount(putmaps[n..]) == LiveCount(putmaps)
  {
    if n < |putmaps| {
      LiveCountDead(putmaps[..|putmaps| - 1], n);
      assert putmaps[n..][..|putmaps| - n - 1] == putmaps[..|putmaps| - 1][n..];
    } else {
      LiveCountNone(putmaps);
    }
  }

  lemma {:induction false} LiveCountNone(putmaps: seq<Option<Putmap>>)
    requires forall k :: 0 <= k < |putmaps| ==> putmaps[k].None?
    ensures LiveCount(putmaps) == 0
  {
    if putmaps != [] { LiveCountNone(putmaps[..|putmaps| - 1]); }
  }

  /** The list newputmap prepares: the kept putmaps unchanged, then one free slot. */
  lemma RoomShape(s: State)
    requires ListShape(s)
    ensures var r := MakeRoom(s); var n := |r.putmaps| - 1; var d := r.firstPutmap - s.firstPutmap;
            && ListShape(r) && r.lastPutmap == s.lastPutmap + 1 && r.firstPutmap + n == r.lastPutmap
            && (if s.firstPutmap == 0 then n == 0 else 0 <= d && d + n == |s.putmaps|)
            && (forall k :: 0 <= k < n ==> r.putmaps[k] == s.putmaps[d + k])
            && (s.firstPutmap != 0 ==> forall k :: 0 <= k < d ==> s.putmaps[k].None?)
            && LiveCount(r.putmaps[..n]) == LiveCount(s.putmaps)
  {
    var r := MakeRoom(s);
    var n := |r.putmaps| - 1;
    if s.firstPutmap == 0 {
      assert r.putmaps[..n] == s.putmaps;
    } else {
      var dead := DeadPrefix(s.putmaps);
      assert r.putmaps[..n] == s.putmaps[dead..];
      assert LiveCount(s.putmaps[dead..]) == LiveCount(s.putmaps) by { LiveCountDead(s.putmaps, dead); }
    }
  }

  /** The list after retiring a generation: the kept putmaps unchanged, then one for it. */
  lemma AdvanceList(s: State)
    requires Inv(s)
    ensures var t := Advance(s); var n := |t.putmaps| - 1; var d := t.firstPutmap - s.firstPutmap;
            && n >= 0 && t.putmaps[n] == Some(Putmap(Identity(|s.branches|), GenRefs(s.files, s.generation)))
            && ListShape(t) && t.lastPutmap == s.generation && t.firstPutmap + n == s.generation
            && (if s.firstPutmap == 0 then n == 0 else 0 <= d && d + n == |s.putmaps|)
            && (forall k :: 0 <= k < n ==> t.putmaps[k] == s.putmaps[d + k])
            && (s.firstPutmap != 0 ==> forall k :: 0 <= k < d ==> s.putmaps[k].None?)
  {
    RoomShape(s);
    CurrentRefsBySubtraction(s);
  }

  lemma AdvanceKeeps(s: State)
    requires Inv(s)
    ensures Inv(Advance(s))
    ensures forall k :: 0 <= k < |s.files| && s.files[k].Open? ==> s.files[k].generation < Advance(s).generation
    ensures var t := Advance(s);
            && t.putmaps != [] && t.putmaps[|t.putmaps| - 1] == Some(Putmap(Identity(|s.branches|), GenRefs(s.files, s.generation)))
  {
    var t := Advance(s);
    AdvanceList(s);
    var d := t.firstPutmap - s.firstPutmap;
    forall k | 0 <= k < |t.putmaps| && t.putmaps[k].Some?
      ensures t.putmaps[k].value.count == GenRefs(t.files, t.firstPutmap + k)
    {
      if k < |t.putmaps| - 1 { assert t.firstPutmap + k == s.firstPutmap + (d + k); }
    }
    forall k | 0 <= k < |t.files|
      ensures FileOk(t, t.files[k])
      ensures t.files[k].Open? ==> t.files[k].generation < t.generation
    {
      assert FileOk(s, s.files[k]);
      AdvanceFileOk(s, s.files[k]);
    }
  }

  lemma AdvanceFileOk(s: State, f: FileSlot)
    requires Inv(s) && FileOk(s, f)
    ensures FileOk(Advance(s), f)
  {
    var t := Advance(s);
    AdvanceList(s);
    if f.Open? {
      forall i | 0 <= i < |f.lower| && f.lower[i].Some?
        ensures f.bstart <= i <= f.bend && Located(t, f.generation, i, f.lower[i].value)
      {
        assert Located(s, f.generation, i, f.lower[i].value);
        if f.generation != s.generation {
          assert t.putmaps[f.generation - t.firstPutmap] == s.putmaps[f.generation - s.firstPutmap];
        }
      }
    }
  }

  lemma AdvancePromptAt(s: State, k: int)
    requires Inv(s) && Prompt(s) && 0 <= k < |Advance(s).putmaps| - 1
    ensures PromptAt(Advance(s), k)
  {
    AdvanceList(s);
    var d := Advance(s).firstPutmap - s.firstPutmap;
    assert PromptAt(s, d + k);
    assert Advance(s).firstPutmap + k == s.firstPutmap + (d + k);
  }

  /** After a generation is retired, putmaps and references still match one to one exactly when the
      retired generation had a reference: newputmap stores its map even when nobody will ever put it. */
  lemma AdvancePrompt(s: State)
    requires Inv(s) && Prompt(s)
    ensures Prompt(Advance(s)) <==> GenRefs(s.files, s.generation) > 0
  {
    AdvanceList(s);
    var t := Advance(s);
    var n := |t.putmaps| - 1;
    forall k | 0 <= k < n ensures PromptAt(t, k) { AdvancePromptAt(s, k); }
    assert PromptAt(t, n) <==> GenRefs(s.files, s.generation) > 0;
  }

  // ---------- Moving branches ----------

  /** Reading past the end of a map finds whatever memory holds there: `beyond`. */
  function Follow(slots: seq<int>, v: int, beyond: int -> int): int {
    if 0 <= v < |slots| then slots[v] else beyond(v)
  }

  function Compose(older: seq<int>, newer: seq<int>, beyond: int -> int): (r: seq<int>)
    ensures |r| == |older|
  {
    seq(|older|, i requires 0 <= i < |older| => Follow(newer, older[i], beyond))
  }

  /** fixputmaps: every older map is composed with the newest one. */
  function FixPutmaps(putmaps: seq<Option<Putmap>>, beyond: int -> int): (r: seq<Option<Putmap>>)
    requires putmaps != [] && putmaps[|putmaps| - 1].Some?
    ensures |r| == |putmaps|
  {
    var cur := putmaps[|putmaps| - 1].value.slots;
    seq(|putmaps|, k requires 0 <= k < |putmaps| =>
      if k < |putmaps| - 1 && putmaps[k].Some?
      then Some(putmaps[k].value.(slots := Compose(putmaps[k].value.slots, cur, beyond)))
      else putmaps[k])
  }

  function SetNewest(putmaps: seq<Option<Putmap>>, m: seq<int>): (r: seq<Option<Putmap>>)
    requires putmaps != [] && putmaps[|putmaps| - 1].Some?
    ensures |r| == |putmaps| && r[|r| - 1].Some?
  {
    putmaps[|putmaps| - 1 := Some(putmaps[|putmaps| - 1].value.(slots := m))]
  }

  /** The branches are rearranged by m right after the generation was retired. */
  function Retarget(s: State, m: seq<int>, branches: seq<Branch>, beyond: int -> int): State
    requires s.putmaps != [] && s.putmaps[|s.putmaps| - 1].Some?
  {
    s.(branches := branches, putmaps := FixPutmaps(SetNewest(s.putmaps, m), beyond))
  }

  /** m sends every branch that is in use to a branch with the same root. */
  ghost predicate Carries(s: State, m: seq<int>, branches: seq<Branch>) {
    && |m| == |s.branches|
    && forall b :: 0 <= b < |s.branches| && Holders(s.files, s.branches[b].root) > 0 ==>
         0 <= m[b] < |branches| && branches[m[b]].root == s.branches[b].root
  }

  lemma RetargetKeeps(s: State, m: seq<int>, branches: seq<Branch>, beyond: int -> int)
    requires Inv(s) && s.putmaps != []
    requires s.putmaps[|s.putmaps| - 1].Some? && s.putmaps[|s.putmaps| - 1].value.slots == Identity(|s.branches|)
    requires forall k :: 0 <= k < |s.files| && s.files[k].Open? ==> s.files[k].generation < s.generation
    requires Carries(s, m, branches) && |branches| >= 1
    requires DistinctRoots(branches)
    requires forall b :: 0 <= b < |branches| ==> branches[b].count == Holders(s.files, branches[b].root)
    ensures Inv(Retarget(s, m, branches, beyond))
    ensures Prompt(s) ==> Prompt(Retarget(s, m, branches, beyond))
  {
    var t := Retarget(s, m, branches, beyond);
    forall k | 0 <= k < |t.files|
      ensures FileOk(t, t.files[k])
    {
      assert FileOk(s, s.files[k]);
      RetargetFileOk(s, m, branches, beyond, k);
    }
    forall k | 0 <= k < |t.putmaps| ensures PromptAt(t, k) <==> PromptAt(s, k) {}
  }

  /** A reference of generation g is found through its composed map at the new place of its branch. */
  lemma RetargetFileOk(s: State, m: seq<int>, branches: seq<Branch>, beyond: int -> int, fid: int)
    requires Inv(s) && s.putmaps != []
    requires s.putmaps[|s.putmaps| - 1].Some? && s.putmaps[|s.putmaps| - 1].value.slots == Identity(|s.branches|)
    requires 0 <= fid < |s.files| && (s.files[fid].Open? ==> s.files[fid].generation < s.generation)
    requires Carries(s, m, branches)
    ensures FileOk(Retarget(s, m, branches, beyond), s.files[fid])
  {
    var t := Retarget(s, m, branches, beyond);
    var f := s.files[fid];
    assert FileOk(s, f);
    if f.Open? {
      forall i | 0 <= i < |f.lower| && f.lower[i].Some?
        ensures f.bstart <= i <= f.bend && Located(t, f.generation, i, f.lower[i].value)
      {
        var l := Loc(s, f.generation, i);
        assert Located(s, f.generation, i, f.lower[i].value);
        assert LiveRef(s, fid, i);
        LiveRefCounts(s, fid, i);
        assert Holders(s.files, s.branches[l].root) > 0;
        var k := f.generation - s.firstPutmap;
        assert 0 <= k < |s.putmaps| && s.putmaps[k].Some?;
        assert Loc(t, f.generation, i) == m[l];
      }
    }
  }

  // ---------- The administrator's operations ----------

  const MAY_WRITE: bv32 := 2
  const MAY_READ: bv32 := 4
  const MAY_NFSRO: bv32 := 16
  const FD_SETSIZE := 1024

  predicate GoodPerms(perms: bv32) {
    (perms & !(MAY_READ | MAY_WRITE | MAY_NFSRO)) == 0 && (perms & MAY_READ) != 0
  }

  datatype Outcome = Success | InvalidArgument | Busy | TooBig | WildWrite

  function InsertMap(n: nat, k: int): seq<int> { seq(n, i => if i < k then i else i + 1) }

  /** The removed branch's own entry keeps its old value. */
  function RemoveMap(n: nat, k: int): seq<int> { seq(n, i => if i <= k then i else i - 1) }

  function AddOutcome(s: State, k: int, root: Root, perms: bv32, overlap: (Root, Root) -> bool): Outcome {
    if !GoodPerms(perms) then InvalidArgument
    else if |s.branches| - 1 > FD_SETSIZE then TooBig
    else if exists b :: 0 <= b < |s.branches| && overlap(s.branches[b].root, root) then InvalidArgument
    else if k < 0 || k > |s.branches| then InvalidArgument
    else Success
  }

  function AddBranch(s: State, k: int, root: Root, perms: bv32, overlap: (Root, Root) -> bool, beyond: int -> int): State {
    if AddOutcome(s, k, root, perms, overlap) == Success then
      Retarget(Advance(s), InsertMap(|s.branches|, k), Inserted(s.branches, k, Branch(root, 0, perms)), beyond)
    else s
  }

  function DelOutcome(s: State, k: int): Outcome {
    if |s.branches| == 1 then Busy
    else if k < 0 || k > |s.branches| - 1 then InvalidArgument
    else if s.branches[k].count != 0 then Busy
    else Success
  }

  function FreeEmptyNewest(s: State): State
    requires s.putmaps != [] && s.putmaps[|s.putmaps| - 1].Some?
  {
    if s.putmaps[|s.putmaps| - 1].value.count == 0 then s.(putmaps := s.putmaps[|s.putmaps| - 1 := None]) else s
  }

  function DelBranch(s: State, k: int, beyond: int -> int): State {
    if DelOutcome(s, k) == Success then
      FreeEmptyNewest(Retarget(Advance(s), RemoveMap(|s.branches|, k), Removed(s.branches, k), beyond))
    else s
  }

  /** A mode change retires the generation before it looks at its arguments, and its range check
      lets the index one past the last branch through. */
  function RdwrOutcome(s: State, k: int, perms: bv32): Outcome {
    if k < 0 || k > |s.branches| then InvalidArgument
    else if !GoodPerms(perms) then InvalidArgument
    else if k == |s.branches| then WildWrite
    else Success
  }

  function RdwrBranch(s: State, k: int, perms: bv32): State {
    if RdwrOutcome(s, k, perms) == Success then
      Advance(s).(branches := s.branches[k := s.branches[k].(perms := perms)])
    else if RdwrOutcome(s, k, perms) == WildWrite then Advance(s)
    else NewPutmap(s)
  }

  function Inserted(branches: seq<Branch>, k: int, b: Branch): (r: seq<Branch>)
    requires 0 <= k <= |branches|
    ensures |r| == |branches| + 1
    ensures forall j :: 0 <= j < |r| ==> r[j] == (if j < k then branches[j] else if j == k then b else branches[j - 1])
  {
    branches[..k] + [b] + branches[k..]
  }

  function Removed(branches: seq<Branch>, k: int): (r: seq<Branch>)
    requires 0 <= k < |branches|
    ensures |r| == |branches| - 1
    ensures forall j :: 0 <= j < |r| ==> r[j] == (if j < k then branches[j] else branches[j + 1])
  {
    branches[..k] + branches[k + 1..]
  }

  // ---------- What the operations do to the branches ----------

  /** The modes that are accepted: read, or read and write, each with or without NFS read-only. */
  lemma GoodPermsAre(perms: bv32)
    ensures GoodPerms(perms) <==> perms == 4 || perms == 6 || perms == 20 || perms == 22
  {
  }

  /** b stands at k; the branches from k on have moved one place to the right, the others stand where they did. */
  ghost predicate OneAdded(was: seq<Branch>, now: seq<Branch>, k: int, b: Branch) {
    && 0 <= k <= |was| && |now| == |was| + 1 && now[k] == b
    && (forall j :: 0 <= j < k ==> now[j] == was[j])
    && (forall j {:trigger was[j]} :: k <= j < |was| ==> now[j + 1] == was[j])
  }

  ghost predicate OneGone(was: seq<Branch>, now: seq<Branch>, k: int) {
    && 0 <= k < |was| && |now| == |was| - 1
    && (forall j :: 0 <= j < k ==> now[j] == was[j])
    && (forall j {:trigger now[j]} :: k <= j < |now| ==> now[j] == was[j + 1])
  }

  ghost predicate OnlyModes(was: seq<Branch>, now: seq<Branch>, k: int, perms: bv32) {
    && 0 <= k < |was| == |now| && now[k] == Branch(was[k].root, was[k].count, perms)
    && (forall j :: 0 <= j < |was| && j != k ==> now[j] == was[j])
  }

  /** Adding a branch succeeds exactly with accepted modes, at most 1025 branches before, no overlap with any
      of them and a place that exists. The branch then stands there with its modes, used by nobody, and no
      other branch has changed. Otherwise nothing has. */
  lemma AddBranchAdds(s: State, k: int, root: Root, perms: bv32, overlap: (Root, Root) -> bool, beyond: int -> int)
    ensures var t := AddBranch(s, k, root, perms, overlap, beyond); var out := AddOutcome(s, k, root, perms, overlap);
            var good := perms == 4 || perms == 6 || perms == 20 || perms == 22;
            var apart := forall b :: 0 <= b < |s.branches| ==> !overlap(s.branches[b].root, root);
            && (out == Success <==> good && |s.branches| <= 1025 && apart && 0 <= k <= |s.branches|)
            && (out == TooBig <==> good && |s.branches| > 1025)
            && (out == Success || out == TooBig || out == InvalidArgument)
            && t.files == s.files
            && if out == Success then OneAdded(s.branches, t.branches, k, Branch(root, 0, perms)) && t.generation == s.generation + 1
               else t == s
  {
    GoodPermsAre(perms);
  }

  /** Removing a branch fails with EBUSY for the only branch and for one in use, with EINVAL for a place that
      does not exist. Otherwise that branch is gone and no other has changed. */
  lemma DelBranchRemoves(s: State, k: int, beyond: int -> int)
    requires |s.branches| >= 1
    ensures var t := DelBranch(s, k, beyond); var out := DelOutcome(s, k); var n := |s.branches|;
            && (out == Busy <==> n == 1 || (0 <= k < n && s.branches[k].count != 0))
            && (out == InvalidArgument <==> n > 1 && !(0 <= k < n))
            && (out == Success <==> n > 1 && 0 <= k < n && s.branches[k].count == 0)
            && t.files == s.files
            && if out == Success then OneGone(s.branches, t.branches, k) && t.generation == s.generation + 1
               else t == s
  {
  }

  /** A mode change sets the modes of one branch and touches no other. With the index one past the end nothing
      of the table is written, but the generation is over; a refusal leaves the branches and the generation. */
  lemma RdwrBranchSetsModes(s: State, k: int, perms: bv32)
    ensures var t := RdwrBranch(s, k, perms); var out := RdwrOutcome(s, k, perms); var n := |s.branches|;
            var good := perms == 4 || perms == 6 || perms == 20 || perms == 22;
            && (out == Success <==> good && 0 <= k < n) && (out == WildWrite <==> good && k == n)
            && (out == InvalidArgument <==> !good || k < 0 || k > n)
            && t.files == s.files
            && (if out == Success then OnlyModes(s.branches, t.branches, k, perms) else t.branches == s.branches)
            && t.generation == if out == InvalidArgument then s.generation else s.generation + 1
  {
    GoodPermsAre(perms);
  }

  lemma InsertCarries(a: State, k: int, b: Branch)
    requires 0 <= k <= |a.branches|
    requires DistinctRoots(a.branches)
    requires forall j :: 0 <= j < |a.branches| ==> a.branches[j].root != b.root
    ensures Carries(a, InsertMap(|a.branches|, k), Inserted(a.branches, k, b))
    ensures DistinctRoots(Inserted(a.branches, k, b))
  {
    InsertDistinct(a.branches, k, b);
    hide DistinctRoots, Holders;
  }

  lemma InsertDistinct(branches: seq<Branch>, k: int, b: Branch)
    requires 0 <= k <= |branches| && DistinctRoots(branches) && forall j :: 0 <= j < |branches| ==> branches[j].root != b.root
    ensures DistinctRoots(Inserted(branches, k, b))
  {
    var now := Inserted(branches, k, b);
    hide Inserted;
    forall i, j | 0 <= i < j < |now| ensures now[i].root != now[j].root {
      if i == k { assert now[j] == branches[j - 1]; }
    }
  }

  lemma RemoveCarries(a: State, k: int)
    requires 0 <= k < |a.branches| && Holders(a.files, a.branches[k].root) == 0
    requires DistinctRoots(a.branches)
    ensures Carries(a, RemoveMap(|a.branches|, k), Removed(a.branches, k))
    ensures DistinctRoots(Removed(a.branches, k))
  {
    RemoveDistinct(a.branches, k);
    hide DistinctRoots, Holders;
    var m, now := RemoveMap(|a.branches|, k), Removed(a.branches, k);
    forall b | 0 <= b < |a.branches| && Holders(a.files, a.branches[b].root) > 0
      ensures 0 <= m[b] < |now| && now[m[b]].root == a.branches[b].root
    {
      assert b != k;
    }
  }

  lemma RemoveDistinct(branches: seq<Branch>, k: int)
    requires 0 <= k < |branches| && DistinctRoots(branches)
    ensures DistinctRoots(Removed(branches, k))
  {
    var now := Removed(branches, k);
    hide Removed;
    forall i, j | 0 <= i < j < |now| ensures now[i].root != now[j].root {
      assert now[j] == branches[if j < k then j else j + 1];
    }
  }

  lemma AddBranchKeeps(s: State, k: int, root: Root, perms: bv32, overlap: (Root, Root) -> bool, beyond: int -> int)
    requires Inv(s) && forall r :: overlap(r, r)
    ensures var t := AddBranch(s, k, root, perms, overlap, beyond);
            Inv(t) && (Prompt(s) && GenRefs(s.files, s.generation) > 0 ==> Prompt(t))
  {
    if AddOutcome(s, k, root, perms, overlap) == Success {
      assert forall b :: 0 <= b < |s.branches| ==> s.branches[b].root != root;
      InsertKeeps(s, k, Branch(root, 0, perms), beyond);
    }
  }

  lemma InsertKeeps(s: State, k: int, b: Branch, beyond: int -> int)
    requires Inv(s) && 0 <= k <= |s.branches| && b.count == 0
    requires forall j :: 0 <= j < |s.branches| ==> s.branches[j].root != b.root
    ensures var a := Advance(s);
            && a.putmaps != [] && a.putmaps[|a.putmaps| - 1].Some?
            && var t := Retarget(a, InsertMap(|s.branches|, k), Inserted(s.branches, k, b), beyond);
               Inv(t) && (Prompt(s) && GenRefs(s.files, s.generation) > 0 ==> Prompt(t))
  {
    var a := Advance(s);
    AdvanceKeeps(s);
    var branches := Inserted(s.branches, k, b);
    FreshRootUnheld(s, b.root);
    InsertCarries(a, k, b);
    assert forall j :: 0 <= j < |branches| ==> branches[j].count == Holders(a.files, branches[j].root);
    assert Prompt(s) && GenRefs(s.files, s.generation) > 0 ==> Prompt(a) by {
      if Prompt(s) { AdvancePrompt(s); }
    }
    RetargetKeeps(a, InsertMap(|s.branches|, k), branches, beyond);
  }

  /** A root that is no branch of the mount is held by no open file. */
  lemma FreshRootUnheld(s: State, root: Root)
    requires Shape(s) && FilesOk(s) && forall b :: 0 <= b < |s.branches| ==> s.branches[b].root != root
    ensures Holders(s.files, root) == 0
  {
    FreshRootUnheldIn(s, s.files, root);
  }

  lemma {:induction false} FreshRootUnheldIn(s: State, files: seq<FileSlot>, root: Root)
    requires forall b :: 0 <= b < |s.branches| ==> s.branches[b].root != root
    requires forall k :: 0 <= k < |files| ==> FileOk(s, files[k])
    ensures Holders(files, root) == 0
  {
    if files != [] {
      FreshRootUnheldIn(s, files[..|files| - 1], root);
      var f := files[|files| - 1];
      assert FileOk(s, f);
      if f.Open? {
        LowerWithout(f.lower, root);
      }
    }
  }

  lemma {:induction false} LowerWithout(lower: seq<Option<Root>>, r: Root)
    requires forall i :: 0 <= i < |lower| ==> lower[i] != Some(r)
    ensures Holds(lower, r) == 0
  {
    if lower != [] { LowerWithout(lower[..|lower| - 1], r); }
  }

  lemma DelBranchKeeps(s: State, k: int, beyond: int -> int)
    requires Inv(s)
    ensures var t := DelBranch(s, k, beyond); Inv(t) && (Prompt(s) ==> Prompt(t))
  {
    if DelOutcome(s, k) == Success {
      assert s.branches[k].count == Holders(s.files, s.branches[k].root);
      RemoveKeeps(s, k, beyond);
      var r := Retarget(Advance(s), RemoveMap(|s.branches|, k), Removed(s.branches, k), beyond);
      FreeEmptyNewestKeeps(r);
      if Prompt(s) { DelBranchPrompt(s, r); }
    }
  }

  lemma RemoveKeeps(s: State, k: int, beyond: int -> int)
    requires Inv(s) && 0 <= k < |s.branches| && |s.branches| > 1 && Holders(s.files, s.branches[k].root) == 0
    ensures var a := Advance(s);
            && a.putmaps != [] && a.putmaps[|a.putmaps| - 1].Some?
            && Inv(Retarget(a, RemoveMap(|s.branches|, k), Removed(s.branches, k), beyond))
  {
    var a := Advance(s);
    AdvanceKeeps(s);
    var branches := Removed(s.branches, k);
    RemoveCarries(a, k);
    assert forall j :: 0 <= j < |branches| ==> branches[j].count == Holders(a.files, branches[j].root);
    RetargetKeeps(a, RemoveMap(|s.branches|, k), branches, beyond);
  }

  lemma FreeEmptyNewestKeeps(s: State)
    requires Inv(s) && s.putmaps != [] && s.putmaps[|s.putmaps| - 1].Some?
    ensures Inv(FreeEmptyNewest(s))
  {
    var t := FreeEmptyNewest(s);
    var n := |s.putmaps| - 1;
    if s.putmaps[n].value.count == 0 {
      forall k | 0 <= k < |t.files|
        ensures FileOk(t, t.files[k])
      {
        var f := s.files[k];
        assert FileOk(s, f);
        if f.Open? {
          forall i | 0 <= i < |f.lower| && f.lower[i].Some?
            ensures f.bstart <= i <= f.bend && Located(t, f.generation, i, f.lower[i].value)
          {
            assert LiveRef(s, k, i);
            LiveRefCounts(s, k, i);
            assert Located(s, f.generation, i, f.lower[i].value);
            assert s.putmaps[n].value.count == GenRefs(s.files, s.firstPutmap + n);
            assert f.generation != s.firstPutmap + n;
          }
        }
      }
    }
  }

  lemma DelBranchPrompt(s: State, r: State)
    requires Inv(s) && Prompt(s) && PutmapsOk(r) && r.putmaps != [] && r.putmaps[|r.putmaps| - 1].Some?
    requires r.files == s.files && r.firstPutmap == Advance(s).firstPutmap && |r.putmaps| == |Advance(s).putmaps|
    requires forall k :: 0 <= k < |r.putmaps| ==> (r.putmaps[k].None? <==> Advance(s).putmaps[k].None?)
    ensures Prompt(FreeEmptyNewest(r))
  {
    var t := FreeEmptyNewest(r);
    var n := |r.putmaps| - 1;
    forall k | 0 <= k < |t.putmaps| ensures PromptAt(t, k) {
      if k < n {
        AdvancePromptAt(s, k);
      } else {
        assert r.putmaps[n].value.count == GenRefs(r.files, r.firstPutmap + n);
      }
    }
  }

  lemma RdwrBranchPrompt(s: State, k: int, perms: bv32)
    requires Inv(s)
    ensures Prompt(s) && 0 <= k <= |s.branches| && GoodPerms(perms) && GenRefs(s.files, s.generation) > 0
            ==> Prompt(RdwrBranch(s, k, perms))
  {
    if Prompt(s) && 0 <= k <= |s.branches| && GoodPerms(perms) && GenRefs(s.files, s.generation) > 0 {
      AdvancePrompt(s);
      var t := RdwrBranch(s, k, perms);
      forall k | 0 <= k < |t.putmaps| ensures PromptAt(t, k) { assert PromptAt(Advance(s), k); }
    }
  }

  lemma IncgenPrompt(s: State)
    requires Inv(s)
    ensures Prompt(s) && GenRefs(s.files, s.generation) > 0 ==> Prompt(Advance(s))
  {
    if Prompt(s) { AdvancePrompt(s); }
  }

  /** A mode change keeps the bookkeeping exactly when the arguments pass the two checks that the
      code makes too late: otherwise a putmap was added for a generation that is not over. */
  lemma RdwrBranchKeepsIff(s: State, k: int, perms: bv32)
    requires Inv(s)
    ensures Inv(RdwrBranch(s, k, perms)) <==> 0 <= k <= |s.branches| && GoodPerms(perms)
  {
    if 0 <= k <= |s.branches| && GoodPerms(perms) {
      AdvanceKeeps(s);
      if k < |s.branches| { ModesKeep(Advance(s), k, perms); }
    } else {
      assert RdwrBranch(s, k, perms) == NewPutmap(s);
      hide FilesOk, CountsOk, PutmapsOk;
    }
  }

  lemma ModesKeep(s: State, k: int, perms: bv32)
    requires Inv(s) && 0 <= k < |s.branches|
    ensures Inv(s.(branches := s.branches[k := s.branches[k].(perms := perms)]))
  {
    var t := s.(branches := s.branches[k := s.branches[k].(perms := perms)]);
    forall j | 0 <= j < |t.files| ensures FileOk(t, t.files[j]) {
      assert FileOk(s, s.files[j]);
      FileOkMoves(s, t, s.files[j]);
    }
  }
}
