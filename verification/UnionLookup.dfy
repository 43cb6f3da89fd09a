/** unionfs_lookup_backend: the search through the branches that fills in a union dentry. */
module UnionLookup {
  import opened Options
  import opened Compression
  import opened UnionView

  datatype Error = Fine | EPERM | EROFS | EINVAL | EISDIR | ENOTEMPTY | EEXIST | ENOSPC

  /** A lower dentry: none, one without an object behind it, one with. */
  datatype Hidden = Null | Negative | Positive(node: Node)

  /** The leftmost branch that has the parent directory: dbstart of the parent. */
  function FirstDir(layers: seq<Layer>): (r: nat)
    requires exists i :: 0 <= i < |layers| && layers[i].Some?
    ensures r < |layers| && layers[r].Some? && forall j :: 0 <= j < r ==> layers[j].None?
  {
    if layers[0].Some? then 0
    else
      assert exists i :: 0 <= i < |layers[1..]| && layers[1..][i].Some? by {
        var i :| 0 <= i < |layers| && layers[i].Some?;
        assert layers[1..][i - 1].Some?;
      }
      FirstDir(layers[1..]) + 1
  }

  ghost predicate HasDir(layers: seq<Layer>) { exists i :: 0 <= i < |layers| && layers[i].Some? }

  /** What a lookup in one branch finds. */
  function Beside(l: Layer, name: string): (h: Hidden)
    ensures h != Null
  {
    if Has(l, name) then Positive(Of(l)[name]) else Negative
  }

  /** The lower directory behind a lower dentry. */
  function DirOf(h: Hidden): Layer { if h.Positive? && h.node.Dir? then Some(h.node.entries) else None }

  ghost predicate Behind(layers: seq<Layer>, name: string, j: nat, h: Hidden)
    requires j < |layers|
  {
    h.Positive? && Has(layers[j], name) && Of(layers[j])[name] == h.node
  }

  /** Branch j says nothing about the name. */
  predicate Empty(layers: seq<Layer>, name: string, j: nat)
    requires j < |layers|
  {
    !Has(layers[j], name) && !Stops(layers[j], name)
  }

  /** Branch j ends a search: by a whiteout, or by an opaque directory of that name. */
  predicate Ends(layers: seq<Layer>, name: string, j: nat)
    requires j < |layers|
  {
    Stops(layers[j], name) || (Has(layers[j], name) && Of(layers[j])[name].Dir? && IsOpaque(Of(layers[j])[name].entries))
  }

  /** The first branch from i on, of those not looked up already, that ends the search. */
  function PartialStop(layers: seq<Layer>, hidden: seq<Hidden>, name: string, i: nat): (r: nat)
    requires |hidden| == |layers| && i <= |layers|
    ensures i <= r <= |layers| && (r < |layers| ==> hidden[r] == Null && Ends(layers, name, r))
    ensures forall j :: i <= j < r && hidden[j] == Null ==> !Ends(layers, name, j)
    decreases |layers| - i
  {
    if i == |layers| || (hidden[i] == Null && Ends(layers, name, i)) then i else PartialStop(layers, hidden, name, i + 1)
  }

  /** The lower dentries before i are filled in where there was none. */
  ghost predicate Refilled(hidden: seq<Hidden>, layers: seq<Layer>, before: seq<Hidden>, name: string, i: nat) {
    && |hidden| == |layers| == |before|
    && forall j :: 0 <= j < |layers| ==> hidden[j] == Refill(layers, before, name, i, j)
  }

  lemma RefilledStep(hidden: seq<Hidden>, layers: seq<Layer>, before: seq<Hidden>, name: string, i: nat)
    requires Refilled(hidden, layers, before, name, i) && i < |layers|
    ensures hidden[i] == before[i]
    ensures Refilled(hidden[i := Refill(layers, hidden, name, i + 1, i)], layers, before, name, i + 1)
  {
  }

  lemma StopStep(layers: seq<Layer>, before: seq<Hidden>, name: string, i: nat)
    requires |before| == |layers| && i <= |layers|
    ensures if i == |layers| || (before[i] == Null && Ends(layers, name, i)) then PartialStop(layers, before, name, i) == i
            else PartialStop(layers, before, name, i) == PartialStop(layers, before, name, i + 1)
  {
  }

  lemma RefilledEnd(hidden: seq<Hidden>, layers: seq<Layer>, before: seq<Hidden>, name: string)
    requires Refilled(hidden, layers, before, name, |layers|)
    ensures Refilled(hidden, layers, before, name, |layers| + 1)
  {
    forall j | 0 <= j < |layers| ensures hidden[j] == Refill(layers, before, name, |layers| + 1, j) {
    }
  }

  lemma RefilledStart(layers: seq<Layer>, before: seq<Hidden>, name: string, i: nat)
    requires |before| == |layers| && i <= |layers|
    requires forall j :: 0 <= j < i && before[j] == Null ==> Empty(layers, name, j)
    ensures Refilled(before, layers, before, name, i)
  {
    forall j | 0 <= j < |layers| ensures before[j] == Refill(layers, before, name, i, j) {
      assert j < i && before[j] == Null ==> Empty(layers, name, j);
    }
  }

  function Refill(layers: seq<Layer>, before: seq<Hidden>, name: string, i: nat, j: nat): Hidden
    requires |layers| == |before| && j < |layers|
  {
    if before[j] == Null && j < i && Has(layers[j], name) && !Stops(layers[j], name)
    then Positive(Of(layers[j])[name]) else before[j]
  }

  /** A positive dentry: what the view says, branch by branch. */
  ghost predicate FoundWith(layers: seq<Layer>, name: string, bstart: int, bend: int, bopaque: int, hidden: seq<Hidden>) {
    && |hidden| == |layers| && 0 <= bstart <= bend < |layers| && -1 <= bopaque < |layers|
    && Top(layers, name, 0) == Some(bstart) && hidden[bstart] == Positive(Of(layers[bstart])[name])
    && (forall j :: 0 <= j < |hidden| && hidden[j] != Null ==> bstart <= j <= bend && Behind(layers, name, j, hidden[j]))
    && (Of(layers[bstart])[name].Dir? ==> forall j :: 0 <= j < |layers| ==> Sub(layers, name, 0)[j] == DirOf(hidden[j]))
    && (forall j :: 0 <= j < bend && hidden[j] == Null ==> Empty(layers, name, j))
    && (bopaque < 0 ==> hidden[bend] != Null)
    && (bopaque >= 0 ==> bopaque == bend && Ends(layers, name, bend) && (hidden[bend] == Null ==> Stops(layers[bend], name)))
    && (Of(layers[bstart])[name].Dir? && bopaque < 0 ==> forall j :: bend <= j < |hidden| && hidden[j] == Null ==> Empty(layers, name, j))
    && (Of(layers[bstart])[name].File? ==>
          bend == bstart && bopaque == -1 && forall j :: 0 <= j < |hidden| && j != bstart ==> hidden[j] == Null)
  }

  /** The branches before i have been looked at and nothing has ended the search. */
  ghost predicate SearchingWith(layers: seq<Layer>, name: string, i: nat, bstart: int, bend: int, bopaque: int, hidden: seq<Hidden>) {
    && |hidden| == |layers| && HasDir(layers) && FirstDir(layers) <= i <= |layers| && bopaque == -1 <= bstart
    && Top(layers, name, 0) == (if bstart >= 0 then Some(bstart) else Top(layers, name, i))
    && (bstart >= 0 ==> bstart <= bend < i && hidden[bstart].Positive? && hidden[bstart].node.Dir? && hidden[bend] != Null)
    && (forall j :: 0 <= j < |hidden| && hidden[j] != Null ==> 0 <= bstart <= j <= bend && Behind(layers, name, j, hidden[j]))
    && (forall j :: 0 <= j < i && hidden[j] == Null ==> Empty(layers, name, j))
    && (forall j :: 0 <= j < i ==> Sub(layers, name, 0)[j] == DirOf(hidden[j]))
    && Sub(layers, name, 0)[i..] == Sub(layers, name, i)
  }

  /** Branch i has the name, and nothing before it has ended the search. */
  ghost predicate Reached(layers: seq<Layer>, name: string, i: nat, bstart: int, bend: int, bopaque: int, hidden: seq<Hidden>) {
    && i < |layers| && SearchingWith(layers, name, i, bstart, bend, bopaque, hidden)
    && ValidName(name) && Has(layers[i], name) && !Stops(layers[i], name)
    && Sub(layers, name, 0)[i] == Sub(layers, name, i)[0] && Sub(layers, name, 0)[i + 1..] == Sub(layers, name, i)[1..]
    && forall j :: i <= j < |layers| ==> Sub(layers, name, 0)[j] == Sub(layers, name, i)[j - i]
  }

  lemma KeptFile(layers: seq<Layer>, name: string, i: nat, bstart: int, bend: int, hidden: seq<Hidden>)
    requires Reached(layers, name, i, bstart, bend, -1, hidden) && Of(layers[i])[name].File?
    ensures var kept := hidden[i := Positive(Of(layers[i])[name])];
            if bstart < 0 then FoundWith(layers, name, i, i, -1, kept)
            else SearchingWith(layers, name, i + 1, bstart, i, -1, kept)
  {
  }

  /** No branch has ended the search. */
  lemma SearchedAll(layers: seq<Layer>, name: string, bstart: int, bend: int, bopaque: int, hidden: seq<Hidden>)
    requires SearchingWith(layers, name, |layers|, bstart, bend, bopaque, hidden) && ValidName(name)
    ensures if bstart >= 0 then FoundWith(layers, name, bstart, bend, bopaque, hidden)
            else View(layers, name) == Nothing && |hidden| == |layers| && forall j :: 0 <= j < |hidden| ==> hidden[j] == Null
  {
  }

  lemma KeptOpaque(layers: seq<Layer>, name: string, i: nat, bstart: int, bend: int, hidden: seq<Hidden>)
    requires Reached(layers, name, i, bstart, bend, -1, hidden)
    requires Of(layers[i])[name].Dir? && IsOpaque(Of(layers[i])[name].entries)
    ensures FoundWith(layers, name, if bstart < 0 then i else bstart, i, i, hidden[i := Positive(Of(layers[i])[name])])
  {
    if bstart < 0 {
      assert Top(layers, name, i) == Some(i);
    }
  }

  lemma KeptDir(layers: seq<Layer>, name: string, i: nat, bstart: int, bend: int, hidden: seq<Hidden>)
    requires Reached(layers, name, i, bstart, bend, -1, hidden)
    requires Of(layers[i])[name].Dir? && !IsOpaque(Of(layers[i])[name].entries)
    ensures SearchingWith(layers, name, i + 1, if bstart < 0 then i else bstart, i, -1, hidden[i := Positive(Of(layers[i])[name])])
  {
  }

  class Dentry {
    var bstart: int
    var bend: int
    var bopaque: int
    var hidden: seq<Hidden>

    constructor ()
      ensures hidden == []
    {
      bstart, bend, bopaque, hidden := -1, -1, -1, [];
    }

    ghost predicate Found(layers: seq<Layer>, name: string)
      reads this
    {
      FoundWith(layers, name, bstart, bend, bopaque, hidden)
    }

    /** A negative dentry: one lower dentry, in the leftmost branch that has the directory. Where it was not
        the search that looked up the name there, for the whiteout, an object may stand beside it. */
    ghost predicate Missing(layers: seq<Layer>, name: string)
      reads this
    {
      && |hidden| == |layers| && 0 <= bstart == bend < |layers| && layers[bstart].Some? && hidden[bstart] == Beside(layers[bstart], name)
      && (forall j :: 0 <= j < |hidden| && j != bstart ==> hidden[j] == Null)
      && forall j :: 0 <= j < bstart ==> layers[j].None?
    }

    /** INTERPOSE_LOOKUP. */
    method Lookup(layers: seq<Layer>, name: string) returns (err: Error)
      requires HasDir(layers)
      modifies this
      ensures err == if ".wh." <= name || "__dir_opaque" <= name then EPERM else Fine
      ensures err == Fine ==> if View(layers, name) == Nothing then Missing(layers, name) else Found(layers, name)
    {
      if !ValidName(name) { return EPERM; }
      var i := Begin(layers, name);
      var found, firstNegative := Search(layers, name, i);
      if !found { Negate(layers, name, firstNegative); }
      err := Fine;
    }

    /** The loop over the branches. */
    method Search(layers: seq<Layer>, name: string, first: nat) returns (found: bool, firstNegative: int)
      requires Searching(layers, name, first) && ValidName(name) && bstart < 0 && first == FirstDir(layers)
      modifies this
      ensures found ==> Found(layers, name)
      ensures !found ==> View(layers, name) == Nothing && firstNegative == FirstDir(layers)
                         && |hidden| == |layers| && forall j :: 0 <= j < |hidden| ==> hidden[j] == Null
    {
      var i := first;
      firstNegative := -1;
      while i < |layers|
        invariant Searching(layers, name, i)
        invariant bstart < 0 ==> firstNegative == if i == first then -1 else first
        decreases |layers| - i
      {
        if bstart < 0 && firstNegative < 0 && layers[i].Some? && !Has(layers[i], name) && !Has(layers[i], Wh(name)) {
          firstNegative := i;
        }
        var outcome := LookIn(layers, name, i);
        hide *;
        if outcome == FileFound { return true, firstNegative; }
        if outcome == Stop { break; }
        i := i + 1;
      }
      if i == |layers| { SearchedAll(layers, name, bstart, bend, bopaque, hidden); }
      hide *;
      found := bstart >= 0;
      if !found && firstNegative < 0 { firstNegative := i; }
    }

    method Begin(layers: seq<Layer>, name: string) returns (i: nat)
      requires HasDir(layers)
      modifies this
      ensures i == FirstDir(layers) && Searching(layers, name, i) && bstart < 0
    {
      bstart, bend, bopaque := -1, -1, -1;
      hidden := seq(|layers|, _ => Null);
      i := FirstDir(layers);
      NothingBefore(layers, name, i);
    }

    /** The name is looked up in branch i, unless that was done before and it was not there. */
    method Negate(layers: seq<Layer>, name: string, i: nat)
      requires i < |hidden| == |layers| && forall j :: 0 <= j < |hidden| ==> hidden[j] == Null
      modifies this`hidden, this`bstart, this`bend
      ensures hidden == old(hidden)[i := Beside(layers[i], name)] && bstart == bend == i
    {
      hidden := hidden[i := Beside(layers[i], name)];
      bstart, bend := i, i;
    }

    /** The body of the loop, for branch i. */
    method LookIn(layers: seq<Layer>, name: string, i: nat) returns (outcome: Outcome)
      requires i < |layers| && Searching(layers, name, i) && ValidName(name)
      modifies this
      ensures match outcome
              case Next => Searching(layers, name, i + 1) && (bstart < 0 ==> Empty(layers, name, i))
              case FileFound => Found(layers, name)
              case Stop => if old(bstart) < 0 && Stops(layers[i], name)
                           then bstart < 0 && hidden == old(hidden) && View(layers, name) == Nothing
                           else Found(layers, name)
    {
      SubAt(layers, name, i);
      if Has(layers[i], Wh(name)) {
        bend, bopaque := i, i;
        return Stop;
      }
      if !Has(layers[i], name) { return Next; }
      outcome := Keep(layers, name, i);
    }

    /** Branch i has the name. */
    method Keep(layers: seq<Layer>, name: string, i: nat) returns (outcome: Outcome)
      requires Reached(layers, name, i, bstart, bend, -1, hidden) && bopaque == -1 && |hidden| == |layers|
      modifies this
      ensures match outcome
              case Next => Searching(layers, name, i + 1) && bstart >= 0
              case FileFound => Found(layers, name)
              case Stop => Found(layers, name)
    {
      var node := layers[i].value[name];
      hide FoundWith, SearchingWith, Reached;
      if node.File? {
        KeptFile(layers, name, i, bstart, bend, hidden);
      } else if IsOpaque(node.entries) {
        KeptOpaque(layers, name, i, bstart, bend, hidden);
      } else {
        KeptDir(layers, name, i, bstart, bend, hidden);
      }
      if bstart < 0 { bstart := i; }
      hidden := hidden[i := Positive(node)];
      bend := i;
      if node.File? { return if bstart == i then FileFound else Next; }
      if IsOpaque(node.entries) {
        bopaque := i;
        return Stop;
      }
      return Next;
    }

    /** INTERPOSE_PARTIAL: what lies right of where the first lookup ended is looked up as well. */
    method PartialLookup(layers: seq<Layer>, name: string)
      requires HasDir(layers) && Found(layers, name) && ValidName(name)
      modifies this`bend, this`bopaque, this`hidden
      ensures |hidden| == |layers| && bstart <= bend < |layers|
      ensures var w := PartialStop(layers, old(hidden), name, FirstDir(layers) + 1);
              && bopaque == (if w < |layers| then w else old(bopaque))
              && Refilled(hidden, layers, old(hidden), name, w + 1)
      ensures forall j :: 0 <= j < |layers| && hidden[j] != Null ==> bstart <= j <= bend
    {
      ghost var before, end := hidden, bend;
      ghost var w := PartialStop(layers, before, name, FirstDir(layers) + 1);
      FoundFacts(layers, name);
      assert forall j :: 0 <= j < |before| && before[j] == Null && !Empty(layers, name, j) ==> bstart < j && end <= j;
      RefilledStart(layers, before, name, FirstDir(layers) + 1);
      FillRight(layers, name, FirstDir(layers) + 1);
    }

    /** The loop of a partial lookup. */
    method FillRight(layers: seq<Layer>, name: string, first: nat)
      requires |hidden| == |layers| && first <= |layers| && 0 <= bstart <= bend < |layers|
      requires Refilled(hidden, layers, hidden, name, first)
      requires forall j :: 0 <= j < |hidden| && hidden[j] != Null ==> bstart <= j <= bend
      requires forall j :: 0 <= j < |hidden| && hidden[j] == Null && !Empty(layers, name, j) ==> bstart < j && bend <= j
      modifies this`bend, this`bopaque, this`hidden
      ensures |hidden| == |layers| && bstart <= bend < |layers|
      ensures var w := PartialStop(layers, old(hidden), name, first);
              && bopaque == (if w < |layers| then w else old(bopaque))
              && Refilled(hidden, layers, old(hidden), name, w + 1)
      ensures forall j :: 0 <= j < |layers| && hidden[j] != Null ==> bstart <= j <= bend
    {
      ghost var before, end := hidden, bend;
      ghost var w := PartialStop(layers, before, name, first);
      var i := first;
      while i < |layers|
        invariant first <= i <= |layers| == |hidden| && bopaque == old(bopaque)
        invariant end <= bend < |layers| && (bend == end || bend < i)
        invariant PartialStop(layers, before, name, i) == w
        invariant Refilled(hidden, layers, before, name, i)
        invariant forall j :: 0 <= j < |hidden| && hidden[j] != Null ==> bstart <= j <= bend
      {
        RefilledStep(hidden, layers, before, name, i);
        StopStep(layers, before, name, i);
        hide Refilled, PartialStop;
        var stop := FillIn(layers, name, i);
        i := i + 1;
        if stop { break; }
      }
      StopStep(layers, before, name, |layers|);
      if w == |layers| { RefilledEnd(hidden, layers, before, name); }
    }

    lemma FoundFacts(layers: seq<Layer>, name: string)
      requires HasDir(layers) && Found(layers, name)
      ensures |hidden| == |layers| && 0 <= bstart <= bend < |layers| && FirstDir(layers) <= bstart
      ensures forall j :: 0 <= j < |hidden| && hidden[j] != Null ==> bstart <= j <= bend
      ensures forall j :: 0 <= j < |hidden| && hidden[j] == Null && !Empty(layers, name, j) ==> bstart < j && bend <= j
    {
      TopBefore(layers, name, 0, bstart);
    }

    /** The body of the loop of a partial lookup, for branch i. */
    method FillIn(layers: seq<Layer>, name: string, i: nat) returns (stop: bool)
      requires i < |layers| == |hidden|
      modifies this`bend, this`bopaque, this`hidden
      ensures hidden == old(hidden)[i := Refill(layers, old(hidden), name, i + 1, i)]
      ensures stop == (old(hidden)[i] == Null && Ends(layers, name, i))
      ensures bend == if old(hidden)[i] == Null && !Empty(layers, name, i) then i else old(bend)
      ensures bopaque == if stop then i else old(bopaque)
    {
      stop := false;
      if hidden[i] == Null && layers[i].Some? {
        if Has(layers[i], Wh(name)) {
          bend, bopaque := i, i;
          return true;
        }
        if Has(layers[i], name) {
          var node := layers[i].value[name];
          hidden := hidden[i := Positive(node)];
          bend := i;
          if node.Dir? && IsOpaque(node.entries) {
            bopaque := i;
            return true;
          }
        }
      }
    }

    ghost predicate Searching(layers: seq<Layer>, name: string, i: nat)
      reads this
    {
      SearchingWith(layers, name, i, bstart, bend, bopaque, hidden)
    }
  }

  datatype Outcome = Next | Stop | FileFound

  /** What Sub says of branch i and of those behind it. */
  lemma SubAt(layers: seq<Layer>, name: string, i: nat)
    requires i < |layers| && Sub(layers, name, 0)[i..] == Sub(layers, name, i)
    ensures Sub(layers, name, 0)[i] == Sub(layers, name, i)[0]
    ensures Sub(layers, name, 0)[i + 1..] == Sub(layers, name, i)[1..]
    ensures forall j :: i <= j < |layers| ==> Sub(layers, name, 0)[j] == Sub(layers, name, i)[j - i]
  {
    var s := Sub(layers, name, 0);
    assert s[i..][0] == s[i] && s[i..][1..] == s[i + 1..];
    forall j | i <= j < |layers| ensures s[j] == Sub(layers, name, i)[j - i] {
      assert s[i..][j - i] == s[j];
    }
  }

  lemma {:induction false} EmptyBefore(layers: seq<Layer>, name: string, i: nat)
    requires i <= |layers| && forall j :: 0 <= j < i ==> Empty(layers, name, j)
    ensures Top(layers, name, 0) == Top(layers, name, i)
    ensures (forall j :: 0 <= j < i ==> Sub(layers, name, 0)[j] == None) && Sub(layers, name, 0)[i..] == Sub(layers, name, i)
  {
    if i > 0 {
      EmptyBefore(layers, name, i - 1);
      assert Empty(layers, name, i - 1);
      assert Sub(layers, name, 0)[i - 1] == Sub(layers, name, 0)[i - 1..][0];
      assert Sub(layers, name, 0)[i..] == Sub(layers, name, 0)[i - 1..][1..];
    }
  }

  lemma {:induction false} NothingBefore(layers: seq<Layer>, name: string, i: nat)
    requires i <= |layers| && forall j :: 0 <= j < i ==> layers[j].None?
    ensures Top(layers, name, 0) == Top(layers, name, i)
    ensures (forall j :: 0 <= j < i ==> Sub(layers, name, 0)[j] == None) && Sub(layers, name, 0)[i..] == Sub(layers, name, i)
  {
    if i > 0 {
      NothingBefore(layers, name, i - 1);
      assert Sub(layers, name, 0)[i - 1] == Sub(layers, name, 0)[i - 1..][0];
      assert Sub(layers, name, 0)[i..] == Sub(layers, name, 0)[i - 1..][1..];
    }
  }
}
