/** The operations that change a union directory: each works on lower directories it may write to and
    leaves whiteouts where it may not. */
module UnionChanges {
  import opened Options
  import opened Compression
  import opened UnionView
  import opened UnionLookup

  function With(l: Layer, x: string, node: Node): Layer { Some(Of(l)[x := node]) }

  function Without(l: Layer, x: string): Layer { Some(Of(l) - {x}) }

  /** The rightmost writable branch up to i, -1 if there is none. */
  function LastWritable(writable: seq<bool>, i: int): (r: int)
    requires i < |writable|
    ensures -1 <= r && (r >= 0 ==> r <= i && writable[r]) && forall j :: r < j <= i && j >= 0 ==> !writable[j]
    decreases i + 1
  {
    if i < 0 then -1 else if writable[i] then i else LastWritable(writable, i - 1)
  }

  /** The branch that create_whiteout settles for: it can write there, or can look there and finds the whiteout. */
  function WhiteoutBranch(layers: seq<Layer>, writable: seq<bool>, hidden: seq<Hidden>, name: string, i: int): (r: int)
    requires |writable| == |layers| == |hidden| && i < |layers|
    ensures -1 <= r && (r >= 0 ==> r <= i && (writable[r] || (hidden[r] != Null && Stops(layers[r], name))))
    ensures forall j :: r < j <= i && j >= 0 ==> !writable[j] && (hidden[j] == Null || !Stops(layers[j], name))
    decreases i + 1
  {
    if i < 0 then -1
    else if writable[i] || (hidden[i] != Null && Stops(layers[i], name)) then i
    else WhiteoutBranch(layers, writable, hidden, name, i - 1)
  }

  /** A lower dentry is known at or left of branch i. Where create_whiteout knows of none and can make no parents
      it never gets to the error of the branch. */
  ghost predicate Known(hidden: seq<Hidden>, i: int) { exists j :: 0 <= j <= i && j < |hidden| && hidden[j] != Null }

  /** How unlinking a file that is found in branch s ends, unless a directory is in the way. */
  function UnlinkResult(writable: seq<bool>, s: nat): Error
    requires s < |writable|
  {
    if LastWritable(writable, s) >= 0 then Fine else if s == 0 then EROFS else EINVAL
  }

  function WhitedOut(layers: seq<Layer>, name: string, b: int): (r: seq<Layer>)
    requires b < |layers|
    ensures |r| == |layers|
  {
    if b < 0 || Stops(layers[b], name) then layers else layers[b := With(layers[b], Wh(name), File([]))]
  }

  /** Lower directories that may not be written to are as they were. */
  ghost predicate ReadOnlyKept(writable: seq<bool>, a: seq<Layer>, b: seq<Layer>) {
    |a| == |b| == |writable| && forall i :: 0 <= i < |a| && !writable[i] ==> a[i] == b[i]
  }

  /** What branch l has under an entry, if anything. */
  function Entry(l: Layer, x: string): Option<Node> { if x in Of(l) then Some(Of(l)[x]) else None }

  /** The copies in the branches `gone` are removed and no others. The whiteout in branch b is there: the one
      found, or an empty new one; no other branch gets one or loses one. For b == -1 none does. */
  ghost predicate Unlinked(was: seq<Layer>, now: seq<Layer>, name: string, gone: set<int>, b: int) {
    && |now| == |was| && -1 <= b < |was|
    && (forall j :: 0 <= j < |was| ==> Entry(now[j], name) == if j in gone then None else Entry(was[j], name))
    && (forall j :: 0 <= j < |was| ==>
          Entry(now[j], ".wh." + name) == if j == b && Entry(was[j], ".wh." + name) == None then Some(File([])) else Entry(was[j], ".wh." + name))
  }

  lemma WhitedOutExactly(was: seq<Layer>, now: seq<Layer>, name: string, gone: set<int>, b: int)
    requires |now| == |was| && -1 <= b < |was|
    requires forall j :: 0 <= j < |was| ==> now[j] == if j in gone then Without(was[j], name) else was[j]
    ensures Unlinked(was, WhitedOut(now, name, b), name, gone, b)
  {
    assert Wh(name) == ".wh." + name && |Wh(name)| == |name| + 4;
  }

  /** The branch in which the whiteout of an unlinked file ends up: short of the next branch that ends a search, if
      the leftmost copy could be removed, and otherwise left of that copy or in its place. */
  ghost function CoverBranch(layers: seq<Layer>, writable: seq<bool>, hidden: seq<Hidden>, name: string, s: nat): (b: int)
    requires |layers| == |writable| == |hidden| && s < |layers| && HasDir(layers)
    ensures b < |layers|
  {
    var w := PartialStop(layers, hidden, name, FirstDir(layers) + 1);
    LastWritable(writable, if writable[s] && w < |layers| then w else s)
  }

  /** The branches from i on whose copies of the name a partial lookup meets and which may be written to. */
  ghost function CopiesMet(layers: seq<Layer>, writable: seq<bool>, hidden: seq<Hidden>, name: string, i: nat): set<int>
    requires |layers| == |writable| == |hidden| && HasDir(layers)
  {
    var w := PartialStop(layers, hidden, name, FirstDir(layers) + 1);
    set j | i <= j < |layers| && j <= w && writable[j] && Has(layers[j], name) && !Stops(layers[j], name)
  }

  /** One of the copies that a partial lookup meets lies where nothing may be written. */
  ghost predicate CopyKeptBack(layers: seq<Layer>, writable: seq<bool>, hidden: seq<Hidden>, name: string, s: nat)
    requires |layers| == |writable| == |hidden| && HasDir(layers)
  {
    var w := PartialStop(layers, hidden, name, FirstDir(layers) + 1);
    exists j :: s <= j < |layers| && j <= w && !writable[j] && Has(layers[j], name) && !Stops(layers[j], name)
  }

  /** The branch in which the whiteout ends up when all copies that can be are removed; -1 if none is needed. */
  ghost function CoverAllBranch(layers: seq<Layer>, writable: seq<bool>, hidden: seq<Hidden>, name: string, s: nat): (b: int)
    requires |layers| == |writable| == |hidden| && s < |layers| && HasDir(layers)
    ensures b < |layers|
  {
    var w := PartialStop(layers, hidden, name, FirstDir(layers) + 1);
    if CopyKeptBack(layers, writable, hidden, name, s) then LastWritable(writable, s)
    else if w < |layers| then LastWritable(writable, w) else -1
  }

  /** What unionfs_unlink_whiteout leaves behind when it succeeds. */
  ghost predicate LeftmostGone(was: seq<Layer>, now: seq<Layer>, writable: seq<bool>, hidden: seq<Hidden>, name: string, s: nat)
    requires |was| == |writable| == |hidden| && s < |was| && HasDir(was)
  {
    && Unlinked(was, now, name, if writable[s] then {s} else {}, CoverBranch(was, writable, hidden, name, s))
    && (View(now, name) == Nothing <==> !CopyUncovered(was, writable, hidden, name, s))
  }

  lemma ChangedOne(layers: seq<Layer>, writable: seq<bool>, name: string, b: nat, l: Layer)
    requires |writable| == |layers| && b < |layers| && writable[b] && Others(l, name) == Others(layers[b], name)
    ensures SameElse(layers, layers[b := l], name) && ReadOnlyKept(writable, layers, layers[b := l])
  {
  }

  lemma WithSame(l: Layer, name: string, x: string, node: Node)
    requires x == name || x == Wh(name)
    ensures Others(With(l, x, node), name) == Others(l, name) && Others(Without(l, x), name) == Others(l, name)
  {
  }

  /** A whiteout hides the name when no branch left of it has the name. */
  lemma WhiteoutHides(layers: seq<Layer>, name: string, b: nat)
    requires b < |layers| && forall j :: 0 <= j < b ==> !Has(layers[j], name)
    ensures View(WhitedOut(layers, name, b), name) == Nothing
  {
    var after := WhitedOut(layers, name, b);
    WhDistinct(name, name);
    TopNone(after, name, 0, b);
  }

  /** A copy lies right of branch s, but left of where a whiteout ends up that is meant for the branch of
      the next whiteout, or for the writable branch nearest to that. */
  ghost predicate CopyUncovered(layers: seq<Layer>, writable: seq<bool>, hidden: seq<Hidden>, name: string, s: nat)
    requires |layers| == |writable| == |hidden| && s < |layers| && HasDir(layers)
  {
    var w := PartialStop(layers, hidden, name, FirstDir(layers) + 1);
    writable[s] && w < |layers| && exists j :: s < j < LastWritable(writable, w) && Has(layers[j], name)
  }

  lemma {:induction false} CopyShows(layers: seq<Layer>, name: string, k: nat, j: nat)
    requires k <= j < |layers| && Has(layers[j], name)
    requires forall i :: k <= i <= j ==> !Stops(layers[i], name)
    ensures Top(layers, name, k).Some?
    decreases j - k
  {
    if k < j { CopyShows(layers, name, k + 1, j); }
  }

  lemma SameElseTrans(a: seq<Layer>, b: seq<Layer>, c: seq<Layer>, name: string)
    requires SameElse(a, b, name) && SameElse(b, c, name)
    ensures SameElse(a, c, name)
  {
    forall i | 0 <= i < |a| ensures Others(a[i], name) == Others(c[i], name) {
      assert Others(a[i], name) == Others(b[i], name);
    }
  }

  /** What a whiteout in branch b, or none, changes. */
  lemma WhitedOutFrame(layers: seq<Layer>, writable: seq<bool>, name: string, b: int)
    requires |writable| == |layers| && b < |layers| && (b >= 0 && !Stops(layers[b], name) ==> writable[b])
    ensures SameElse(layers, WhitedOut(layers, name, b), name) && ReadOnlyKept(writable, layers, WhitedOut(layers, name, b))
  {
    if b >= 0 && !Stops(layers[b], name) {
      WithSame(layers[b], name, Wh(name), File([]));
      ChangedOne(layers, writable, name, b, With(layers[b], Wh(name), File([])));
    }
  }

  /** A copy removed, then a whiteout in branch b. */
  lemma RemovedFrame(layers: seq<Layer>, writable: seq<bool>, name: string, s: nat, b: int)
    requires |writable| == |layers| && s < |layers| && writable[s] && b < |layers|
    requires b >= 0 && !Stops(layers[b], name) ==> writable[b]
    ensures var after := WhitedOut(layers[s := Without(layers[s], name)], name, b);
            SameElse(layers, after, name) && ReadOnlyKept(writable, layers, after)
  {
    var removed := layers[s := Without(layers[s], name)];
    WithSame(layers[s], name, name, File([]));
    WhDistinct(name, name);
    ChangedOne(layers, writable, name, s, Without(layers[s], name));
    StopsElsewhere(layers, name, s);
    WhitedOutFrame(removed, writable, name, b);
    SameElseTrans(layers, removed, WhitedOut(removed, name, b), name);
  }

  /** Removing the name in branch s touches no whiteout and no other branch. */
  lemma StopsElsewhere(layers: seq<Layer>, name: string, s: nat)
    requires s < |layers|
    ensures var removed := layers[s := Without(layers[s], name)];
            forall j :: 0 <= j < |layers| ==>
              Stops(removed[j], name) == Stops(layers[j], name) && Has(removed[j], name) == (j != s && Has(layers[j], name))
  {
    assert |Wh(name)| == |name| + 4;
  }

  /** The leftmost copy of a file is in branch s, and w is the next branch that ends a search, as `hidden` and
      `after` say before and after a partial lookup. */
  ghost predicate FileIn(layers: seq<Layer>, name: string, s: nat, hidden: seq<Hidden>, after: seq<Hidden>, w: nat) {
    && HasDir(layers) && |hidden| == |layers| && s < |layers| && ValidName(name)
    && Top(layers, name, 0) == Some(s) && (forall j :: 0 <= j < |hidden| ==> (hidden[j] == Null <==> j != s))
    && w == PartialStop(layers, hidden, name, FirstDir(layers) + 1)
    && Refilled(after, layers, hidden, name, w + 1)
  }

  lemma FileFacts(layers: seq<Layer>, name: string, s: nat, hidden: seq<Hidden>, after: seq<Hidden>, w: nat)
    requires FileIn(layers, name, s, hidden, after, w)
    ensures s < w && forall j :: 0 <= j < w ==> !Stops(layers[j], name) && (j < s ==> !Has(layers[j], name))
    ensures |after| == |layers| && forall j :: 0 <= j <= w && j < |layers| && j != s ==>
              (after[j] != Null <==> Has(layers[j], name) && !Stops(layers[j], name))
    ensures after[s] == hidden[s] && forall j :: 0 <= j < |after| && after[j] != Null ==> layers[j].Some? && !Stops(layers[j], name)
  {
    TopBefore(layers, name, 0, s);
    forall j | 0 <= j < w ensures !Stops(layers[j], name) && (j < s ==> !Has(layers[j], name)) {
      if s < j { assert hidden[j] == Null && !Ends(layers, name, j); }
    }
  }

  /** No copy can be removed: a whiteout goes left of it. */
  lemma CoveredFromLeft(layers: seq<Layer>, writable: seq<bool>, name: string, s: nat, hidden: seq<Hidden>, after: seq<Hidden>, w: nat)
    requires FileIn(layers, name, s, hidden, after, w) && |writable| == |layers| && s > 0 && !writable[s]
    ensures var b := WhiteoutBranch(layers, writable, after, name, s - 1);
            && SameElse(layers, WhitedOut(layers, name, b), name) && ReadOnlyKept(writable, layers, WhitedOut(layers, name, b))
            && (b >= 0 ==> LeftmostGone(layers, WhitedOut(layers, name, b), writable, hidden, name, s)) && b == LastWritable(writable, s)
            && (b < 0 ==> WhitedOut(layers, name, b) == layers) && !Known(after, s - 1)
  {
    FileFacts(layers, name, s, hidden, after, w);
    var b := WhiteoutBranch(layers, writable, after, name, s - 1);
    WhitedOutFrame(layers, writable, name, b);
    WhitedOutExactly(layers, layers, name, {}, b);
    if b >= 0 { WhiteoutHides(layers, name, b); }
  }

  /** The copy is removed and nothing else is known of: the whiteout takes its place. */
  lemma CoveredInPlace(layers: seq<Layer>, writable: seq<bool>, name: string, s: nat, hidden: seq<Hidden>, after: seq<Hidden>, w: nat)
    requires FileIn(layers, name, s, hidden, after, w) && |writable| == |layers| && writable[s] && w == |layers|
    ensures var removed := layers[s := Without(layers[s], name)];
            var b := WhiteoutBranch(removed, writable, after, name, s);
            && b == s && SameElse(layers, WhitedOut(removed, name, b), name)
            && ReadOnlyKept(writable, layers, WhitedOut(removed, name, b))
            && LeftmostGone(layers, WhitedOut(removed, name, b), writable, hidden, name, s)
  {
    FileFacts(layers, name, s, hidden, after, w);
    StopsElsewhere(layers, name, s);
    RemovedFrame(layers, writable, name, s, s);
    WhiteoutHides(layers[s := Without(layers[s], name)], name, s);
    WhitedOutExactly(layers, layers[s := Without(layers[s], name)], name, {s}, s);
  }

  /** The copy is removed and a search beyond it would end in branch w: the name is gone exactly when no
      copy lies between the two, short of where the whiteout ends up. */
  lemma CoveredBeyond(layers: seq<Layer>, writable: seq<bool>, name: string, s: nat, hidden: seq<Hidden>, after: seq<Hidden>, w: nat)
    requires FileIn(layers, name, s, hidden, after, w) && |writable| == |layers| && writable[s] && w < |layers|
    ensures var removed := layers[s := Without(layers[s], name)];
            var b := WhiteoutBranch(removed, writable, after, name, w);
            && b >= 0 && SameElse(layers, WhitedOut(removed, name, b), name)
            && ReadOnlyKept(writable, layers, WhitedOut(removed, name, b))
            && LeftmostGone(layers, WhitedOut(removed, name, b), writable, hidden, name, s)
  {
    FileFacts(layers, name, s, hidden, after, w);
    var removed := layers[s := Without(layers[s], name)];
    StopsElsewhere(layers, name, s);
    var b := WhiteoutBranch(removed, writable, after, name, w);
    assert b == LastWritable(writable, w) >= s;
    assert SameElse(layers, WhitedOut(removed, name, b), name) && ReadOnlyKept(writable, layers, WhitedOut(removed, name, b)) by {
      RemovedFrame(layers, writable, name, s, b);
    }
    assert Unlinked(layers, WhitedOut(removed, name, b), name, {s}, b) by { WhitedOutExactly(layers, removed, name, {s}, b); }
    assert CopyUncovered(layers, writable, hidden, name, s) <==> exists j :: s < j < b && Has(layers[j], name);
    CoveredUpTo(layers, name, s, b);
  }

  /** With the copy in branch s removed and a whiteout in branch b, a copy between them is seen. */
  lemma CoveredUpTo(layers: seq<Layer>, name: string, s: nat, b: nat)
    requires s <= b < |layers| && ValidName(name)
    requires forall j :: 0 <= j < b ==> !Stops(layers[j], name) && (j < s ==> !Has(layers[j], name))
    ensures var removed := layers[s := Without(layers[s], name)];
            View(WhitedOut(removed, name, b), name) == Nothing <==> !exists j :: s < j < b && Has(layers[j], name)
  {
    var removed := layers[s := Without(layers[s], name)];
    StopsElsewhere(layers, name, s);
    if exists j :: s < j < b && Has(layers[j], name) {
      var j :| s < j < b && Has(layers[j], name);
      assert forall i :: 0 <= i <= j ==> WhitedOut(removed, name, b)[i] == removed[i];
      CopyShows(WhitedOut(removed, name, b), name, 0, j);
    } else {
      WhiteoutHides(removed, name, b);
    }
  }

  /** What branch j has of the name is a directory that could be written to; vfs_unlink refuses it. */
  predicate DirCopy(layers: seq<Layer>, writable: seq<bool>, name: string, j: nat)
    requires j < |layers| == |writable|
  {
    writable[j] && Has(layers[j], name) && !Stops(layers[j], name) && Of(layers[j])[name].Dir?
  }

  /** Branch i - 1 has such a directory, and none of those known from i on has. */
  ghost predicate StopsAt(layers: seq<Layer>, writable: seq<bool>, hidden: seq<Hidden>, name: string, i: int, end: int)
    requires |layers| == |writable| == |hidden| && end < |layers|
  {
    0 < i <= |layers| && DirCopy(layers, writable, name, i - 1) && forall j :: i <= j <= end && hidden[j] != Null ==> !DirCopy(layers, writable, name, j)
  }

  /** The copies right of the rightmost such directory that a partial lookup meets are removed, and nothing else is changed. */
  ghost predicate ClearedFrom(was: seq<Layer>, now: seq<Layer>, writable: seq<bool>, hidden: seq<Hidden>, name: string)
    requires |was| == |writable| == |hidden| && HasDir(was)
  {
    var w := PartialStop(was, hidden, name, FirstDir(was) + 1);
    exists i :: 0 < i <= |was| && i - 1 <= w && DirCopy(was, writable, name, i - 1)
                && (forall j :: i <= j <= w && j < |was| ==> !DirCopy(was, writable, name, j))
                && Unlinked(was, now, name, CopiesMet(was, writable, hidden, name, i), -1)
  }

  /** Such a directory lies right of branch s, up to where a partial lookup ends. */
  ghost predicate DirBlocks(layers: seq<Layer>, writable: seq<bool>, hidden: seq<Hidden>, name: string, s: nat)
    requires |layers| == |writable| == |hidden| && HasDir(layers)
  {
    exists j :: s < j <= PartialStop(layers, hidden, name, FirstDir(layers) + 1) && j < |layers| && DirCopy(layers, writable, name, j)
  }

  /** These are the directories that the loop comes across. */
  lemma BlocksMet(layers: seq<Layer>, writable: seq<bool>, name: string, s: nat, hidden: seq<Hidden>, after: seq<Hidden>, w: nat, end: nat)
    requires FileIn(layers, name, s, hidden, after, w) && |writable| == |layers| && s <= end < |layers| && Of(layers[s])[name].File?
    requires forall j :: 0 <= j < |after| && after[j] != Null ==> s <= j <= end
    ensures DirBlocks(layers, writable, hidden, name, s) <==> !NoDirFrom(layers, writable, after, name, s, end)
  {
    FileFacts(layers, name, s, hidden, after, w);
    if DirBlocks(layers, writable, hidden, name, s) {
      var j :| s < j <= w && j < |layers| && DirCopy(layers, writable, name, j);
      assert after[j] != Null;
    }
    if exists j :: s <= j <= end && after[j] != Null && DirCopy(layers, writable, name, j) {
      var j :| s <= j <= end && after[j] != Null && DirCopy(layers, writable, name, j);
      assert j <= w;
    }
  }

  /** The copies in the writable ones of the branches from i to end are removed. */
  ghost predicate Cleared(layers: seq<Layer>, now: seq<Layer>, writable: seq<bool>, hidden: seq<Hidden>, name: string, i: int, end: int) {
    && |layers| == |now| == |writable| == |hidden|
    && forall j :: 0 <= j < |layers| ==>
         now[j] == if i <= j <= end && hidden[j] != Null && writable[j] then Without(layers[j], name) else layers[j]
  }

  /** None of the branches from i to end in which the name is known has a directory in the way. */
  ghost predicate NoDirFrom(layers: seq<Layer>, writable: seq<bool>, hidden: seq<Hidden>, name: string, i: nat, end: int)
    requires |layers| == |writable| == |hidden| && end < |layers|
  {
    forall j :: i <= j <= end && hidden[j] != Null ==> !DirCopy(layers, writable, name, j)
  }

  /** All of them may be written to. */
  ghost predicate WritableFrom(writable: seq<bool>, hidden: seq<Hidden>, i: nat, end: int)
    requires |writable| == |hidden| && end < |hidden|
  {
    forall j :: i <= j <= end && hidden[j] != Null ==> writable[j]
  }

  lemma ClearedStep(layers: seq<Layer>, now: seq<Layer>, writable: seq<bool>, hidden: seq<Hidden>, name: string, i: nat, end: int)
    requires Cleared(layers, now, writable, hidden, name, i + 1, end) && i <= end < |layers|
    ensures now[i] == layers[i]
    ensures Cleared(layers, if hidden[i] != Null && writable[i] then now[i := Without(now[i], name)] else now, writable, hidden, name, i, end)
    ensures NoDirFrom(layers, writable, hidden, name, i, end) <==>
            NoDirFrom(layers, writable, hidden, name, i + 1, end) && (hidden[i] != Null ==> !DirCopy(layers, writable, name, i))
    ensures WritableFrom(writable, hidden, i, end) <==> WritableFrom(writable, hidden, i + 1, end) && (hidden[i] != Null ==> writable[i])
  {
  }

  lemma StoppedAt(layers: seq<Layer>, writable: seq<bool>, hidden: seq<Hidden>, name: string, i: nat, start: nat, end: int)
    requires |layers| == |writable| == |hidden| && start <= i <= end < |layers| && hidden[i] != Null && DirCopy(layers, writable, name, i)
    requires NoDirFrom(layers, writable, hidden, name, i + 1, end)
    ensures StopsAt(layers, writable, hidden, name, i + 1, end) && !NoDirFrom(layers, writable, hidden, name, start, end)
  {
  }

  lemma ClearedFrame(layers: seq<Layer>, now: seq<Layer>, writable: seq<bool>, hidden: seq<Hidden>, name: string, i: int, end: int, b: int)
    requires Cleared(layers, now, writable, hidden, name, i, end) && b < |layers|
    requires b >= 0 && !Stops(layers[b], name) ==> writable[b]
    ensures SameElse(layers, now, name) && ReadOnlyKept(writable, layers, now)
    ensures SameElse(layers, WhitedOut(now, name, b), name) && ReadOnlyKept(writable, layers, WhitedOut(now, name, b))
    ensures forall j :: 0 <= j < |now| ==> Stops(now[j], name) == Stops(layers[j], name)
  {
    assert |Wh(name)| == |name| + 4;
    forall j | 0 <= j < |now|
      ensures Others(now[j], name) == Others(layers[j], name) && Stops(now[j], name) == Stops(layers[j], name)
    {
      WithSame(layers[j], name, name, File([]));
    }
    WhitedOutFrame(now, writable, name, b);
    SameElseTrans(layers, now, WhitedOut(now, name, b), name);
  }

  /** The copies that are removed are those that the partial lookup met. */
  lemma ClearedExactly(layers: seq<Layer>, now: seq<Layer>, writable: seq<bool>, name: string, s: nat, hidden: seq<Hidden>, after: seq<Hidden>,
                       w: nat, i: nat, end: int, b: int)
    requires FileIn(layers, name, s, hidden, after, w) && |writable| == |layers| && s <= i && -1 <= b < |layers|
    requires Cleared(layers, now, writable, after, name, i, end) && forall j :: 0 <= j < |after| && after[j] != Null ==> s <= j <= end
    ensures Unlinked(layers, WhitedOut(now, name, b), name, CopiesMet(layers, writable, hidden, name, i), b)
    ensures CopyKeptBack(layers, writable, hidden, name, s) <==> exists j :: s <= j <= end && j < |after| && after[j] != Null && !writable[j]
  {
    FileFacts(layers, name, s, hidden, after, w);
    MetAre(layers, name, s, hidden, after, w);
    var gone := CopiesMet(layers, writable, hidden, name, i);
    hide FileIn;
    forall j | 0 <= j < |layers| ensures now[j] == if j in gone then Without(layers[j], name) else layers[j] {}
    WhitedOutExactly(layers, now, name, gone, b);
  }

  lemma ClearedUpTo(layers: seq<Layer>, now: seq<Layer>, writable: seq<bool>, name: string, s: nat, hidden: seq<Hidden>, after: seq<Hidden>,
                    w: nat, i: nat, end: int)
    requires FileIn(layers, name, s, hidden, after, w) && |writable| == |layers| && s < i <= end + 1 <= |layers| && after[i - 1] != Null
    requires Cleared(layers, now, writable, after, name, i, end) && forall j :: 0 <= j < |after| && after[j] != Null ==> s <= j <= end
    requires StopsAt(layers, writable, after, name, i, end)
    ensures ClearedFrom(layers, now, writable, hidden, name)
  {
    ClearedExactly(layers, now, writable, name, s, hidden, after, w, i, end, -1);
    MetAre(layers, name, s, hidden, after, w);
  }

  lemma MetAre(layers: seq<Layer>, name: string, s: nat, hidden: seq<Hidden>, after: seq<Hidden>, w: nat)
    requires FileIn(layers, name, s, hidden, after, w)
    ensures forall j :: 0 <= j < |layers| ==> (after[j] != Null <==> s <= j <= w && Has(layers[j], name) && !Stops(layers[j], name))
  {
    FileFacts(layers, name, s, hidden, after, w);
    assert after[s] != Null;
    forall j | w < j < |layers| ensures after[j] == Null { assert hidden[j] == Null && after[j] == Refill(layers, hidden, name, w + 1, j); }
  }

  /** The leftmost copy could not be removed, and a whiteout goes left of it; or it could, and takes its place. */
  lemma AllCovered(layers: seq<Layer>, now: seq<Layer>, writable: seq<bool>, name: string, s: nat, hidden: seq<Hidden>, after: seq<Hidden>, w: nat, end: nat)
    requires FileIn(layers, name, s, hidden, after, w) && |writable| == |layers| && Of(layers[s])[name].File?
    requires Cleared(layers, now, writable, after, name, s, end) && s <= end
    ensures var b := WhiteoutBranch(now, writable, after, name, if writable[s] then s else s - 1);
            && SameElse(layers, WhitedOut(now, name, b), name) && ReadOnlyKept(writable, layers, WhitedOut(now, name, b))
            && (writable[s] ==> b == s) && b == LastWritable(writable, s) && !Known(after, s - 1)
            && View(WhitedOut(now, name, b), name) == if b >= 0 then Nothing else View(layers, name)
  {
    FileFacts(layers, name, s, hidden, after, w);
    ClearedFrame(layers, now, writable, after, name, s, end, -1);
    var b := WhiteoutBranch(now, writable, after, name, if writable[s] then s else s - 1);
    ClearedFrame(layers, now, writable, after, name, s, end, b);
    if b >= 0 { WhiteoutHides(now, name, b); } else { CopyKept(layers, now, writable, name, s, hidden, after, w, s, end); }
  }

  /** A copy that has not been removed is what is seen, whatever was removed to its right. */
  lemma CopyKept(layers: seq<Layer>, now: seq<Layer>, writable: seq<bool>, name: string, s: nat, hidden: seq<Hidden>, after: seq<Hidden>,
                 w: nat, i: int, end: int)
    requires FileIn(layers, name, s, hidden, after, w) && |writable| == |layers|
    requires Cleared(layers, now, writable, after, name, i, end) && s <= i && (s == i ==> !writable[s]) && Of(layers[s])[name].File?
    ensures View(now, name) == View(layers, name)
    ensures forall j :: 0 <= j <= s ==> now[j] == layers[j]
  {
    TopBefore(layers, name, 0, s);
    assert forall j :: 0 <= j <= s ==> now[j] == layers[j];
    TopIs(now, name, 0, s);
  }

  /** Every copy that a search could reach has been removed. */
  lemma AllRemoved(layers: seq<Layer>, now: seq<Layer>, writable: seq<bool>, name: string, s: nat, hidden: seq<Hidden>, after: seq<Hidden>, w: nat, end: nat)
    requires FileIn(layers, name, s, hidden, after, w) && |writable| == |layers|
    requires Cleared(layers, now, writable, after, name, s, end) && s <= end
    requires forall j :: 0 <= j < |after| && after[j] != Null ==> s <= j <= end && writable[j]
    ensures var b := if w < |layers| then WhiteoutBranch(now, writable, after, name, w) else -1;
            && SameElse(layers, WhitedOut(now, name, b), name) && ReadOnlyKept(writable, layers, WhitedOut(now, name, b))
            && (w < |layers| ==> b == LastWritable(writable, w) >= 0) && View(WhitedOut(now, name, b), name) == Nothing
  {
    FileFacts(layers, name, s, hidden, after, w);
    ClearedFrame(layers, now, writable, after, name, s, end, -1);
    forall j | 0 <= j < w ensures !Has(now[j], name) {
    }
    if w < |layers| {
      var b := WhiteoutBranch(now, writable, after, name, w);
      ClearedFrame(layers, now, writable, after, name, s, end, b);
      WhiteoutHides(now, name, b);
    } else {
      TopNone(now, name, 0, w);
    }
  }

  class Union {
    var layers: seq<Layer>
    const writable: seq<bool>

    constructor (layers: seq<Layer>, writable: seq<bool>)
      requires |writable| == |layers| && HasDir(layers)
      ensures Valid() && this.layers == layers && this.writable == writable
    {
      this.layers, this.writable := layers, writable;
    }

    ghost predicate Valid()
      reads this
    {
      |writable| == |layers| && HasDir(layers)
    }

    /** create_parents, as far as this directory is concerned: the directory is made in branch i. */
    method CreateParents(i: nat) returns (err: Error)
      requires Valid() && i < |layers|
      modifies this
      ensures Valid()
      ensures err == if writable[i] then Fine else EROFS
      ensures layers == if writable[i] then old(layers)[i := Some(Of(old(layers)[i]))] else old(layers)
    {
      if !writable[i] { return EROFS; }
      err := Fine;
      layers := layers[i := Some(Of(layers[i]))];
      assert layers[i].Some?;
    }

    /** create_whiteout: from branch `start` leftwards, until it has succeeded. */
    method CreateWhiteout(hidden: seq<Hidden>, name: string, start: int) returns (err: Error)
      requires Valid() && |hidden| == |layers| && start < |layers|
      requires forall j :: 0 <= j < |hidden| && hidden[j] != Null ==> layers[j].Some?
      modifies this
      ensures Valid()
      ensures var b := WhiteoutBranch(old(layers), writable, hidden, name, start);
              && err == (if b >= 0 then Fine else if Known(hidden, start) then EROFS else EINVAL)
              && layers == WhitedOut(old(layers), name, b)
    {
      err := EINVAL;
      var i := start;
      while i >= 0
        invariant -1 <= i <= start || i == start
        invariant Valid() && layers == old(layers)
        invariant err == if exists j :: 0 <= j && i < j <= start && hidden[j] != Null then EROFS else EINVAL
        invariant WhiteoutBranch(layers, writable, hidden, name, i) == WhiteoutBranch(layers, writable, hidden, name, start)
      {
        if hidden[i] == Null {
          var e := CreateParents(i);
          if e != Fine {
            i := i - 1;
            continue;
          }
        }
        if Has(layers[i], Wh(name)) {
          assert layers == old(layers);
          return Fine;
        }
        if writable[i] {
          layers := layers[i := With(layers[i], Wh(name), File([]))];
          assert layers[i].Some?;
          return Fine;
        }
        err := EROFS;
        i := i - 1;
      }
    }

    /** vfs_unlink in branch i. */
    method UnlinkIn(i: nat, name: string) returns (err: Error)
      requires Valid() && i < |layers| && Has(layers[i], name)
      modifies this
      ensures Valid()
      ensures err == if !writable[i] then EROFS else if Of(old(layers)[i])[name].Dir? then EISDIR else Fine
      ensures layers == if err == Fine then old(layers)[i := Without(old(layers)[i], name)] else old(layers)
    {
      if !writable[i] { return EROFS; }
      if layers[i].value[name].Dir? { return EISDIR; }
      layers := layers[i := Without(layers[i], name)];
      assert layers[i].Some?;
      return Fine;
    }

    /** The partial lookup with which both ways of unlinking begin. */
    method LookFurther(d: Dentry, name: string) returns (ghost w: nat)
      requires Valid() && ValidName(name) && d.Found(layers, name) && Of(layers[d.bstart])[name].File?
      modifies d
      ensures d.bstart == old(d.bstart) && |d.hidden| == |layers| && d.bstart <= d.bend < |layers|
      ensures FileIn(layers, name, d.bstart, old(d.hidden), d.hidden, w) && d.bopaque == if w < |layers| then w else -1
      ensures |old(d.hidden)| == |layers| && d.hidden[d.bstart] == Positive(Of(layers[d.bstart])[name])
      ensures forall j :: 0 <= j < |layers| && d.hidden[j] != Null ==> d.bstart <= j <= d.bend && Has(layers[j], name) && !Stops(layers[j], name)
      ensures forall j :: 0 <= j < |layers| && d.hidden[j] != Null ==> layers[j].Some?
    {
      w := PartialStop(layers, d.hidden, name, FirstDir(layers) + 1);
      d.PartialLookup(layers, name);
      assert FileIn(layers, name, d.bstart, old(d.hidden), d.hidden, w);
      FileFacts(layers, name, d.bstart, old(d.hidden), d.hidden, w);
    }

    /** unionfs_unlink_whiteout removes the leftmost copy or, where that cannot be, puts a whiteout left
        of it. When it succeeds the name is gone, unless further copies lie between the one removed and
        the whiteout that was there before: nothing is put in front of those. */
    method UnlinkWhiteout(d: Dentry, name: string) returns (err: Error)
      requires Valid() && ValidName(name) && d.Found(layers, name) && Of(layers[d.bstart])[name].File?
      modifies this, d
      ensures Valid() && SameElse(old(layers), layers, name) && ReadOnlyKept(writable, old(layers), layers)
      ensures |old(d.hidden)| == |old(layers)|
      ensures err == UnlinkResult(writable, old(d.bstart)) && (err != Fine ==> layers == old(layers))
      ensures err == Fine ==>
                Unlinked(old(layers), layers, name, if writable[old(d.bstart)] then {old(d.bstart)} else {},
                         CoverBranch(old(layers), writable, old(d.hidden), name, old(d.bstart)))
      ensures err == Fine ==>
                (View(layers, name) == Nothing <==> !CopyUncovered(old(layers), writable, old(d.hidden), name, old(d.bstart)))
    {
      ghost var before := d.hidden;
      ghost var w := LookFurther(d, name);
      err := RemoveLeftmost(d.hidden, d.bopaque, name, d.bstart, before, w);
    }

    method RemoveLeftmost(hidden: seq<Hidden>, bopaque: int, name: string, s: nat, ghost before: seq<Hidden>, ghost w: nat)
      returns (err: Error)
      requires Valid() && FileIn(layers, name, s, before, hidden, w) && bopaque == if w < |layers| then w else -1
      requires Of(layers[s])[name].File?
      requires |hidden| == |layers| && forall j :: 0 <= j < |layers| && hidden[j] != Null ==> layers[j].Some?
      modifies this
      ensures Valid() && SameElse(old(layers), layers, name) && ReadOnlyKept(writable, old(layers), layers)
      ensures err == UnlinkResult(writable, s) && (err != Fine ==> layers == old(layers))
      ensures err == Fine ==> LeftmostGone(old(layers), layers, writable, before, name, s)
    {
      ghost var was := layers;
      assert SameElse(was, was, name) && ReadOnlyKept(writable, was, was) && Of(layers[s])[name].File?;
      assert UnlinkResult(writable, s) == if LastWritable(writable, s) >= 0 then Fine else if s == 0 then EROFS else EINVAL;
      hide *;
      err := UnlinkIn(s, name);
      if err != Fine && err != EROFS { return; }
      if err != Fine {
        if s == 0 { return; }
        CoveredFromLeft(layers, writable, name, s, before, hidden, w);
        err := CreateWhiteout(hidden, name, s - 1);
      } else {
        err := CoverRemoved(hidden, bopaque, name, s, was, before, w);
      }
    }

    /** The leftmost copy has been removed; the whiteout goes to the next branch that ends a search, or in its place. */
    method CoverRemoved(hidden: seq<Hidden>, bopaque: int, name: string, s: nat, ghost was: seq<Layer>, ghost before: seq<Hidden>, ghost w: nat)
      returns (err: Error)
      requires Valid() && |was| == |layers| && FileIn(was, name, s, before, hidden, w) && bopaque == if w < |layers| then w else -1
      requires writable[s] && layers == was[s := Without(was[s], name)]
      requires |hidden| == |layers| && forall j :: 0 <= j < |layers| && hidden[j] != Null ==> layers[j].Some?
      modifies this
      ensures Valid() && SameElse(was, layers, name) && ReadOnlyKept(writable, was, layers)
      ensures err == Fine && LeftmostGone(was, layers, writable, before, name, s)
    {
      assert Valid() && |writable| == |layers| && FileIn(was, name, s, before, hidden, w) && s < |was| && (w < |layers| || w == |layers|);
      hide *;
      if bopaque != -1 {
        CoveredBeyond(was, writable, name, s, before, hidden, w);
        err := CreateWhiteout(hidden, name, bopaque);
      } else {
        CoveredInPlace(was, writable, name, s, before, hidden, w);
        err := CreateWhiteout(hidden, name, s);
      }
    }

    /** The loop of unionfs_unlink_all: the copies that lie in writable branches are removed, from right to left. */
    method UnlinkCopies(d: Dentry, name: string) returns (err: Error, globalErr: Error, ghost from: int)
      requires Valid() && |d.hidden| == |layers| && 0 <= d.bstart <= d.bend < |layers| && d.hidden[d.bstart] != Null
      requires forall j :: 0 <= j < |layers| && d.hidden[j] != Null ==> Has(layers[j], name) && !Stops(layers[j], name)
      modifies this
      ensures Valid() && (err == Fine || err == EROFS || err == EISDIR)
      ensures err == EISDIR <==> !NoDirFrom(old(layers), writable, d.hidden, name, d.bstart, d.bend)
      ensures err == EISDIR ==>
                && d.bstart < from <= d.bend + 1 && d.hidden[from - 1] != Null
                && StopsAt(old(layers), writable, d.hidden, name, from, d.bend)
                && Cleared(old(layers), layers, writable, d.hidden, name, from, d.bend)
      ensures err == Fine || err == EROFS ==>
                && Cleared(old(layers), layers, writable, d.hidden, name, d.bstart, d.bend)
                && (err == Fine <==> writable[d.bstart])
                && (globalErr == Fine <==> WritableFrom(writable, d.hidden, d.bstart, d.bend))
                && (err == EROFS ==> globalErr == EROFS)
    {
      err, globalErr, from := Fine, Fine, d.bend + 1;
      var i := d.bend;
      assert Cleared(layers, layers, writable, d.hidden, name, i + 1, d.bend);
      assert NoDirFrom(layers, writable, d.hidden, name, i + 1, d.bend) && WritableFrom(writable, d.hidden, i + 1, d.bend);
      hide Cleared, NoDirFrom, WritableFrom, HasDir;
      while i >= d.bstart
        invariant d.bstart - 1 <= i <= d.bend && Valid()
        invariant Cleared(old(layers), layers, writable, d.hidden, name, i + 1, d.bend)
        invariant (err == Fine || err == EROFS) && (globalErr == Fine || globalErr == EROFS)
        invariant NoDirFrom(old(layers), writable, d.hidden, name, i + 1, d.bend) && |layers| == |old(layers)|
        invariant i < d.bstart ==> (err == Fine <==> writable[d.bstart])
        invariant globalErr == Fine ==> err == Fine
        invariant globalErr == Fine <==> WritableFrom(writable, d.hidden, i + 1, d.bend)
      {
        ClearedStep(old(layers), layers, writable, d.hidden, name, i, d.bend);
        if d.hidden[i] != Null {
          err := UnlinkIn(i, name);
          if err != Fine {
            if err != EROFS {
              from := i + 1;
              assert DirCopy(old(layers), writable, name, i);
              StoppedAt(old(layers), writable, d.hidden, name, i, d.bstart, d.bend);
              return;
            }
            globalErr := err;
          }
        }
        i := i - 1;
      }
    }

    /** unionfs_unlink_all: when it succeeds the name is gone, and when it fails it is seen as before. It fails
        where a partial lookup comes across a directory that could be written to, and where no branch can take
        a whiteout. */
    method UnlinkAll(d: Dentry, name: string) returns (err: Error)
      requires Valid() && ValidName(name) && d.Found(layers, name) && Of(layers[d.bstart])[name].File?
      modifies this, d
      ensures Valid() && SameElse(old(layers), layers, name) && ReadOnlyKept(writable, old(layers), layers)
      ensures |old(d.hidden)| == |old(layers)|
      ensures err == if DirBlocks(old(layers), writable, old(d.hidden), name, old(d.bstart)) then EISDIR
                     else UnlinkResult(writable, old(d.bstart))
      ensures View(layers, name) == if err == Fine then Nothing else View(old(layers), name)
      ensures err != EISDIR ==>
                Unlinked(old(layers), layers, name, CopiesMet(old(layers), writable, old(d.hidden), name, old(d.bstart)),
                         CoverAllBranch(old(layers), writable, old(d.hidden), name, old(d.bstart)))
      ensures err == EISDIR ==> ClearedFrom(old(layers), layers, writable, old(d.hidden), name)
    {
      ghost var before := d.hidden;
      ghost var w := LookFurther(d, name);
      ghost var was := layers;
      BlocksMet(was, writable, name, d.bstart, before, d.hidden, w, d.bend);
      var globalErr;
      ghost var i;
      err, globalErr, i := UnlinkCopies(d, name);
      if err == EISDIR {
        ClearedUpTo(was, layers, writable, name, d.bstart, before, d.hidden, w, i, d.bend);
        ClearedFrame(was, layers, writable, d.hidden, name, i, d.bend, -1);
        CopyKept(was, layers, writable, name, d.bstart, before, d.hidden, w, i, d.bend);
      } else {
        err := CoverAll(d.hidden, d.bopaque, name, d.bstart, err, globalErr, was, before, w, d.bend);
      }
    }

    /** The copies that could be removed are gone, and the whiteout that follows, where one is needed, is there. */
    ghost predicate Covered(was: seq<Layer>, before: seq<Hidden>, name: string, s: nat, err: Error)
      reads this
      requires |was| == |writable| == |before| && s < |was| && HasDir(was)
    {
      && SameElse(was, layers, name) && ReadOnlyKept(writable, was, layers)
      && err == UnlinkResult(writable, s) && View(layers, name) == (if err == Fine then Nothing else View(was, name))
      && Unlinked(was, layers, name, CopiesMet(was, writable, before, name, s), CoverAllBranch(was, writable, before, name, s))
    }

    method CoverAll(hidden: seq<Hidden>, bopaque: int, name: string, s: nat, last: Error, globalErr: Error,
                    ghost was: seq<Layer>, ghost before: seq<Hidden>, ghost w: nat, ghost end: nat)
      returns (err: Error)
      requires Valid() && |hidden| == |layers| == |was| && s <= end < |layers| && FileIn(was, name, s, before, hidden, w)
      requires bopaque == (if w < |layers| then w else -1) && Of(was[s])[name].File?
      requires Cleared(was, layers, writable, hidden, name, s, end)
      requires forall j :: 0 <= j < |layers| && hidden[j] != Null ==> layers[j].Some? && s <= j <= end
      requires (last == Fine || last == EROFS) && (last == Fine <==> writable[s]) && (last == EROFS ==> globalErr == EROFS)
      requires globalErr == Fine <==> WritableFrom(writable, hidden, s, end)
      modifies this
      ensures Valid() && Covered(was, before, name, s, err)
    {
      ClearedExactly(was, layers, writable, name, s, before, hidden, w, s, end, CoverAllBranch(was, writable, before, name, s));
      ClearedFrame(was, layers, writable, hidden, name, s, end, -1);
      if globalErr != Fine {
        err := CoverKept(hidden, name, s, last, was, before, w, end);
      } else {
        AllRemoved(was, layers, writable, name, s, before, hidden, w, end);
        assert UnlinkResult(writable, s) == Fine;
        hide View, SameElse, ReadOnlyKept, FileIn, Cleared, WhitedOut, Unlinked, WritableFrom;
        err := Fine;
        if bopaque != -1 { err := CreateWhiteout(hidden, name, bopaque); }
      }
    }

    /** If the leftmost branch could not be written to, the whiteout goes left of it, and otherwise in its place. */
    method CoverKept(hidden: seq<Hidden>, name: string, s: nat, last: Error,
                     ghost was: seq<Layer>, ghost before: seq<Hidden>, ghost w: nat, ghost end: nat)
      returns (err: Error)
      requires Valid() && |hidden| == |layers| == |was| && s <= end < |layers| && FileIn(was, name, s, before, hidden, w)
      requires Of(was[s])[name].File? && Cleared(was, layers, writable, hidden, name, s, end)
      requires forall j :: 0 <= j < |layers| && hidden[j] != Null ==> layers[j].Some? && s <= j <= end
      requires (last == Fine || last == EROFS) && (last == Fine <==> writable[s])
      requires CopyKeptBack(was, writable, before, name, s)
      requires Unlinked(was, WhitedOut(layers, name, LastWritable(writable, s)), name, CopiesMet(was, writable, before, name, s), LastWritable(writable, s))
      modifies this
      ensures Valid() && Covered(was, before, name, s, err)
    {
      err := last;
      AllCovered(was, layers, writable, name, s, before, hidden, w, end);
      ClearedFrame(was, layers, writable, hidden, name, s, end, -1);
      hide View, SameElse, ReadOnlyKept, FileIn, Cleared, WhitedOut, Unlinked, CopyKeptBack;
      if err != Fine {
        if s == 0 { return; }
        err := CreateWhiteout(hidden, name, s - 1);
      } else {
        err := CreateWhiteout(hidden, name, s);
      }
    }
  }

  /** Unlinking that leaves the name visible: one copy is removed, the whiteout that is found lies further
      right than the next copy. */
  method UnlinkLeavesCopy() returns (u: Union, err: Error)
    ensures fresh(u) && err == Fine && View(u.layers, "f") != Nothing
  {
    var copy: Layer, hidden: Layer := Some(map["f" := File([1])]), Some(map[".wh.f" := File([])]);
    var layers := [copy, copy, hidden];
    assert Wh("f") == ".wh.f" && ".wh.f" != "f" && ValidName("f");
    assert layers[0].Some?;
    u := new Union(layers, [true, true, true]);
    var d := new Dentry();
    TopIs(layers, "f", 0, 0);
    err := d.Lookup(layers, "f");
    NextEnd(layers, d.hidden);
    err := u.UnlinkWhiteout(d, "f");
  }

  lemma NextEnd(layers: seq<Layer>, hidden: seq<Hidden>)
    requires |layers| == |hidden| == 3 && HasDir(layers) && hidden[1] == Null && hidden[2] == Null && layers[0].Some?
    requires Has(layers[1], "f") && Of(layers[1])["f"].File? && !Stops(layers[1], "f") && Stops(layers[2], "f")
    ensures CopyUncovered(layers, [true, true, true], hidden, "f", 0)
  {
    var writable := [true, true, true];
    assert FirstDir(layers) == 0;
    assert PartialStop(layers, hidden, "f", 1) == 2;
    assert writable[2] && LastWritable(writable, 2) == 2;
    assert 0 < 1 < LastWritable(writable, 2) && Has(layers[1], "f");
  }
}
