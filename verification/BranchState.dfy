/** The reference bookkeeping of a union mount: the branches with their open counts, the putmaps
    that translate branch indices of older generations, and the table of open files.

    A branch is identified by its lower root directory. An open lower file knows the mount it was
    opened on, so each slot of `lower` carries that root: it says which counter its branchget raised. */
module BranchState {
  import opened Options

  type Root = nat

  datatype Branch = Branch(root: Root, count: int, perms: bv32)

  /** `slots[i]` is the index at which branch i of the putmap's generation stands now. */
  datatype Putmap = Putmap(slots: seq<int>, count: int)

  datatype FileSlot =
    | Closed
    | Open(generation: int, bstart: int, bend: int, lower: seq<Option<Root>>)

  datatype State = State(
    branches: seq<Branch>,
    generation: int,
    firstPutmap: int,
    lastPutmap: int,
    putmaps: seq<Option<Putmap>>,
    files: seq<FileSlot>)

  // ---------- Where a reference points ----------

  /** The index at which branchput_gen looks for branch i of generation g; -1 when it cannot tell. */
  function Loc(s: State, g: int, i: int): int {
    if g == s.generation then i
    else if 0 <= g - s.firstPutmap < |s.putmaps| && s.putmaps[g - s.firstPutmap].Some?
            && 0 <= i < |s.putmaps[g - s.firstPutmap].value.slots|
    then s.putmaps[g - s.firstPutmap].value.slots[i]
    else -1
  }

  ghost predicate Located(s: State, g: int, i: int, r: Root) {
    var l := Loc(s, g, i);
    0 <= l < |s.branches| && s.branches[l].root == r
  }

  // ---------- Counting references ----------

  function Refs(lower: seq<Option<Root>>): nat {
    if lower == [] then 0
    else Refs(lower[..|lower| - 1]) + (if lower[|lower| - 1].Some? then 1 else 0)
  }

  function Holds(lower: seq<Option<Root>>, r: Root): nat {
    if lower == [] then 0
    else Holds(lower[..|lower| - 1], r) + (if lower[|lower| - 1] == Some(r) then 1 else 0)
  }

  function SlotRefs(f: FileSlot): nat { if f.Open? then Refs(f.lower) else 0 }

  function SlotHolds(f: FileSlot, r: Root): nat { if f.Open? then Holds(f.lower, r) else 0 }

  function SlotGenRefs(f: FileSlot, g: int): nat { if f.Open? && f.generation == g then Refs(f.lower) else 0 }

  function TotalRefs(files: seq<FileSlot>): nat {
    if files == [] then 0 else TotalRefs(files[..|files| - 1]) + SlotRefs(files[|files| - 1])
  }

  /** How many open lower files stand on the branch rooted at r. */
  function Holders(files: seq<FileSlot>, r: Root): nat {
    if files == [] then 0 else Holders(files[..|files| - 1], r) + SlotHolds(files[|files| - 1], r)
  }

  /** How many open lower files belong to files of generation g. */
  function GenRefs(files: seq<FileSlot>, g: int): nat {
    if files == [] then 0 else GenRefs(files[..|files| - 1], g) + SlotGenRefs(files[|files| - 1], g)
  }

  function TotalCount(branches: seq<Branch>): int {
    if branches == [] then 0 else TotalCount(branches[..|branches| - 1]) + branches[|branches| - 1].count
  }

  function LiveCount(putmaps: seq<Option<Putmap>>): int {
    if putmaps == [] then 0
    else LiveCount(putmaps[..|putmaps| - 1])
         + (if putmaps[|putmaps| - 1].Some? then putmaps[|putmaps| - 1].value.count else 0)
  }

  // ---------- The invariant ----------

  /** No putmap at first; then a contiguous list of slots from firstPutmap to lastPutmap. */
  ghost predicate ListShape(s: State) {
    if s.firstPutmap == 0 then s.lastPutmap == 0 && s.putmaps == []
    else s.firstPutmap >= 1 && |s.putmaps| == s.lastPutmap - s.firstPutmap + 1
  }

  ghost predicate DistinctRoots(branches: seq<Branch>) {
    forall i, j :: 0 <= i < j < |branches| ==> branches[i].root != branches[j].root
  }

  /** The newest putmap always belongs to the generation before the current one. */
  ghost predicate Shape(s: State) {
    && |s.branches| >= 1 && s.generation >= 1
    && ListShape(s) && s.lastPutmap == s.generation - 1
    && DistinctRoots(s.branches)
  }

  ghost predicate FileOk(s: State, f: FileSlot) {
    f.Open? ==>
      && f.generation <= s.generation
      && 0 <= f.bstart && f.bend < |f.lower|
      && forall i :: 0 <= i < |f.lower| && f.lower[i].Some? ==>
           f.bstart <= i <= f.bend && Located(s, f.generation, i, f.lower[i].value)
  }

  ghost predicate FilesOk(s: State) { forall k :: 0 <= k < |s.files| ==> FileOk(s, s.files[k]) }

  ghost predicate CountsOk(s: State) {
    forall b :: 0 <= b < |s.branches| ==> s.branches[b].count == Holders(s.files, s.branches[b].root)
  }

  ghost predicate PutmapsOk(s: State) {
    forall k :: 0 <= k < |s.putmaps| && s.putmaps[k].Some? ==>
      s.putmaps[k].value.count == GenRefs(s.files, s.firstPutmap + k)
  }

  /** What every step keeps: counters equal the open lower files on their branch, every live
      reference is found at the branch it was taken on, and putmap counts are exact. */
  ghost predicate Inv(s: State) {
    Shape(s) && FilesOk(s) && CountsOk(s) && PutmapsOk(s)
  }

  ghost predicate PromptAt(s: State, k: int)
    requires 0 <= k < |s.putmaps|
  {
    s.putmaps[k].None? <==> GenRefs(s.files, s.firstPutmap + k) == 0
  }

  /** A putmap is gone exactly when no file of its generation holds a reference. */
  ghost predicate Prompt(s: State) {
    forall k :: 0 <= k < |s.putmaps| ==> PromptAt(s, k)
  }

  ghost predicate LiveRef(s: State, fid: int, i: int) {
    0 <= fid < |s.files| && s.files[fid].Open? && 0 <= i < |s.files[fid].lower| && s.files[fid].lower[i].Some?
  }

  // ---------- Counting lemmas ----------

  lemma {:induction false} LowerUpdate(lower: seq<Option<Root>>, i: int, v: Option<Root>, r: Root)
    requires 0 <= i < |lower|
    ensures Holds(lower[i := v], r) == Holds(lower, r) - (if lower[i] == Some(r) then 1 else 0) + (if v == Some(r) then 1 else 0)
    ensures Refs(lower[i := v]) == Refs(lower) - (if lower[i].Some? then 1 else 0) + (if v.Some? then 1 else 0)
  {
    var n := |lower| - 1;
    if i == n {
      assert lower[i := v][..n] == lower[..n];
    } else {
      LowerUpdate(lower[..n], i, v, r);
      assert lower[i := v][..n] == lower[..n][i := v];
    }
  }

  lemma {:induction false} LowerPositive(lower: seq<Option<Root>>, i: int)
    requires 0 <= i < |lower| && lower[i].Some?
    ensures Holds(lower, lower[i].value) >= 1 && Refs(lower) >= 1
  {
    if i < |lower| - 1 { LowerPositive(lower[..|lower| - 1], i); }
  }

  lemma {:induction false} LowerEmpty(lower: seq<Option<Root>>, r: Root)
    requires forall i :: 0 <= i < |lower| ==> lower[i].None?
    ensures Holds(lower, r) == 0 && Refs(lower) == 0
  {
    if lower != [] { LowerEmpty(lower[..|lower| - 1], r); }
  }

  lemma {:induction false} FilesUpdate(files: seq<FileSlot>, k: int, f: FileSlot, r: Root, g: int)
    requires 0 <= k < |files|
    ensures Holders(files[k := f], r) == Holders(files, r) - SlotHolds(files[k], r) + SlotHolds(f, r)
    ensures GenRefs(files[k := f], g) == GenRefs(files, g) - SlotGenRefs(files[k], g) + SlotGenRefs(f, g)
    ensures TotalRefs(files[k := f]) == TotalRefs(files) - SlotRefs(files[k]) + SlotRefs(f)
  {
    var n := |files| - 1;
    if k == n {
      assert files[k := f][..n] == files[..n];
    } else {
      FilesUpdate(files[..n], k, f, r, g);
      assert files[k := f][..n] == files[..n][k := f];
    }
  }

  lemma {:induction false} FilesPositive(files: seq<FileSlot>, k: int, r: Root)
    requires 0 <= k < |files|
    ensures Holders(files, r) >= SlotHolds(files[k], r)
    ensures files[k].Open? ==> GenRefs(files, files[k].generation) >= Refs(files[k].lower)
  {
    if k < |files| - 1 { FilesPositive(files[..|files| - 1], k, r); }
  }

  /** A live reference is counted, both on its branch and in its generation. */
  lemma LiveRefCounts(s: State, fid: int, i: int)
    requires LiveRef(s, fid, i)
    ensures Holders(s.files, s.files[fid].lower[i].value) >= 1
    ensures GenRefs(s.files, s.files[fid].generation) >= 1
  {
    LowerPositive(s.files[fid].lower, i);
    FilesPositive(s.files, fid, s.files[fid].lower[i].value);
  }

  lemma {:induction false} NoGenRefs(files: seq<FileSlot>, g: int)
    requires forall k :: 0 <= k < |files| ==> SlotGenRefs(files[k], g) == 0
    ensures GenRefs(files, g) == 0
  {
    if files != [] { NoGenRefs(files[..|files| - 1], g); }
  }

  lemma {:induction false} RefsWitness(lower: seq<Option<Root>>) returns (i: int)
    requires Refs(lower) > 0
    ensures 0 <= i < |lower| && lower[i].Some?
  {
    if lower[|lower| - 1].Some? { i := |lower| - 1; } else { i := RefsWitness(lower[..|lower| - 1]); }
  }

  // ---------- The two double sums ----------

  /** All references, counted branch by branch. */
  function RootSum(roots: seq<Root>, files: seq<FileSlot>): nat {
    if roots == [] then 0 else RootSum(roots[..|roots| - 1], files) + Holders(files, roots[|roots| - 1])
  }

  function RootSumLower(roots: seq<Root>, lower: seq<Option<Root>>): nat {
    if roots == [] then 0 else RootSumLower(roots[..|roots| - 1], lower) + Holds(lower, roots[|roots| - 1])
  }

  function Occurs(roots: seq<Root>, r: Root): nat {
    if roots == [] then 0 else Occurs(roots[..|roots| - 1], r) + (if roots[|roots| - 1] == r then 1 else 0)
  }

  ghost predicate Distinct(roots: seq<Root>) { forall i, j :: 0 <= i < j < |roots| ==> roots[i] != roots[j] }

  lemma {:induction false} OccursAbsent(roots: seq<Root>, r: Root)
    requires r !in roots
    ensures Occurs(roots, r) == 0
  {
    if roots != [] { OccursAbsent(roots[..|roots| - 1], r); }
  }

  lemma {:induction false} OccursOnce(roots: seq<Root>, r: Root)
    requires Distinct(roots) && r in roots
    ensures Occurs(roots, r) == 1
  {
    var n := |roots| - 1;
    if roots[n] == r { OccursAbsent(roots[..n], r); } else { OccursOnce(roots[..n], r); }
  }

  lemma {:induction false} RootSumLowerStep(roots: seq<Root>, lower: seq<Option<Root>>)
    requires lower != []
    ensures RootSumLower(roots, lower)
         == RootSumLower(roots, lower[..|lower| - 1])
            + (if lower[|lower| - 1].Some? then Occurs(roots, lower[|lower| - 1].value) else 0)
  {
    if roots != [] { RootSumLowerStep(roots[..|roots| - 1], lower); }
  }

  lemma {:induction false} RootSumLowerEmpty(roots: seq<Root>)
    ensures RootSumLower(roots, []) == 0
  {
    if roots != [] { RootSumLowerEmpty(roots[..|roots| - 1]); }
  }

  lemma {:induction false} RootSumLowerIsRefs(roots: seq<Root>, lower: seq<Option<Root>>)
    requires Distinct(roots)
    requires forall i :: 0 <= i < |lower| && lower[i].Some? ==> lower[i].value in roots
    ensures RootSumLower(roots, lower) == Refs(lower)
  {
    if lower == [] {
      RootSumLowerEmpty(roots);
    } else {
      RootSumLowerStep(roots, lower);
      RootSumLowerIsRefs(roots, lower[..|lower| - 1]);
      if lower[|lower| - 1].Some? { OccursOnce(roots, lower[|lower| - 1].value); }
    }
  }

  lemma {:induction false} RootSumStep(roots: seq<Root>, files: seq<FileSlot>)
    requires files != []
    ensures RootSum(roots, files)
         == RootSum(roots, files[..|files| - 1])
            + (if files[|files| - 1].Open? then RootSumLower(roots, files[|files| - 1].lower) else 0)
  {
    if roots != [] { RootSumStep(roots[..|roots| - 1], files); }
  }

  lemma {:induction false} RootSumEmpty(roots: seq<Root>)
    ensures RootSum(roots, []) == 0
  {
    if roots != [] { RootSumEmpty(roots[..|roots| - 1]); }
  }

  lemma {:induction false} RootSumIsTotal(roots: seq<Root>, files: seq<FileSlot>)
    requires Distinct(roots)
    requires forall k, i :: 0 <= k < |files| && files[k].Open? && 0 <= i < |files[k].lower| && files[k].lower[i].Some?
               ==> files[k].lower[i].value in roots
    ensures RootSum(roots, files) == TotalRefs(files)
  {
    if files == [] {
      RootSumEmpty(roots);
    } else {
      var n := |files| - 1;
      RootSumStep(roots, files);
      RootSumIsTotal(roots, files[..n]);
      if files[n].Open? { RootSumLowerIsRefs(roots, files[n].lower); }
    }
  }

  function Roots(branches: seq<Branch>): (roots: seq<Root>)
    ensures |roots| == |branches|
    ensures forall i :: 0 <= i < |roots| ==> roots[i] == branches[i].root
  {
    seq(|branches|, i requires 0 <= i < |branches| => branches[i].root)
  }

  lemma {:induction false} TotalCountIsRootSum(branches: seq<Branch>, files: seq<FileSlot>)
    requires forall b :: 0 <= b < |branches| ==> branches[b].count == Holders(files, branches[b].root)
    ensures TotalCount(branches) == RootSum(Roots(branches), files)
  {
    if branches != [] {
      var n := |branches| - 1;
      TotalCountIsRootSum(branches[..n], files);
      assert Roots(branches)[..n] == Roots(branches[..n]);
    }
  }

  /** The counters of all branches add up to the number of open lower files. */
  lemma CountsSumToRefs(s: State)
    requires Shape(s) && FilesOk(s) && CountsOk(s)
    ensures TotalCount(s.branches) == TotalRefs(s.files)
  {
    TotalCountIsRootSum(s.branches, s.files);
    forall k, i | 0 <= k < |s.files| && s.files[k].Open? && 0 <= i < |s.files[k].lower| && s.files[k].lower[i].Some?
      ensures s.files[k].lower[i].value in Roots(s.branches)
    {
      assert FileOk(s, s.files[k]);
      var l := Loc(s, s.files[k].generation, i);
      assert Roots(s.branches)[l] == s.files[k].lower[i].value;
    }
    RootSumIsTotal(Roots(s.branches), s.files);
  }

  /** References of the generations lo, .., hi - 1. */
  function GenSpan(files: seq<FileSlot>, lo: int, hi: int): nat
    decreases hi - lo
  {
    if hi <= lo then 0 else GenSpan(files, lo, hi - 1) + GenRefs(files, hi - 1)
  }

  lemma {:induction false} GenSpanStep(files: seq<FileSlot>, lo: int, hi: int)
    requires files != []
    ensures var f := files[|files| - 1];
            GenSpan(files, lo, hi) == GenSpan(files[..|files| - 1], lo, hi)
              + (if f.Open? && lo <= f.generation < hi then Refs(f.lower) else 0)
    decreases hi - lo
  {
    if lo < hi { GenSpanStep(files, lo, hi - 1); }
  }

  lemma {:induction false} GenSpanEmpty(lo: int, hi: int)
    ensures GenSpan([], lo, hi) == 0
    decreases hi - lo
  {
    if lo < hi { GenSpanEmpty(lo, hi - 1); }
  }

  lemma {:induction false} GenSpanIsTotal(files: seq<FileSlot>, lo: int, hi: int)
    requires forall k :: 0 <= k < |files| && files[k].Open? && Refs(files[k].lower) > 0 ==> lo <= files[k].generation < hi
    ensures GenSpan(files, lo, hi) == TotalRefs(files)
  {
    if files == [] {
      GenSpanEmpty(lo, hi);
    } else {
      GenSpanStep(files, lo, hi);
      GenSpanIsTotal(files[..|files| - 1], lo, hi);
    }
  }

  lemma {:induction false} LiveCountIsGenSpan(putmaps: seq<Option<Putmap>>, first: int, files: seq<FileSlot>)
    requires forall k :: 0 <= k < |putmaps| ==>
               (if putmaps[k].Some? then putmaps[k].value.count == GenRefs(files, first + k) else GenRefs(files, first + k) == 0)
    ensures LiveCount(putmaps) == GenSpan(files, first, first + |putmaps|)
  {
    if putmaps != [] { LiveCountIsGenSpan(putmaps[..|putmaps| - 1], first, files); }
  }

  /** A generation whose putmap is gone has no references left. */
  lemma GoneMeansUnused(s: State, k: int)
    requires Shape(s) && FilesOk(s) && 0 <= k < |s.putmaps| && s.putmaps[k].None?
    ensures GenRefs(s.files, s.firstPutmap + k) == 0
  {
    forall j | 0 <= j < |s.files|
      ensures SlotGenRefs(s.files[j], s.firstPutmap + k) == 0
    {
      var f := s.files[j];
      if SlotGenRefs(f, s.firstPutmap + k) > 0 {
        var i := RefsWitness(f.lower);
        assert false;
      }
    }
    NoGenRefs(s.files, s.firstPutmap + k);
  }

  /** What newputmap computes by subtraction is the number of references of the current generation. */
  lemma CurrentRefsBySubtraction(s: State)
    requires Inv(s)
    ensures TotalCount(s.branches) - LiveCount(s.putmaps) == GenRefs(s.files, s.generation)
  {
    CountsSumToRefs(s);
    var lo := if s.firstPutmap == 0 then s.generation else s.firstPutmap;
    forall k | 0 <= k < |s.files| && s.files[k].Open? && Refs(s.files[k].lower) > 0
      ensures lo <= s.files[k].generation < s.generation + 1
    {
      var i := RefsWitness(s.files[k].lower);
      assert FileOk(s, s.files[k]);
      assert Located(s, s.files[k].generation, i, s.files[k].lower[i].value);
    }
    GenSpanIsTotal(s.files, lo, s.generation + 1);
    forall k | 0 <= k < |s.putmaps| && s.putmaps[k].None?
      ensures GenRefs(s.files, s.firstPutmap + k) == 0
    {
      GoneMeansUnused(s, k);
    }
    LiveCountIsGenSpan(s.putmaps, s.firstPutmap, s.files);
  }
}
