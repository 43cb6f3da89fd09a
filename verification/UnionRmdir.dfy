/** check_empty and unionfs_rmdir: a union directory is removed when its merged listing is empty. */
module UnionRmdir {
  import opened Options
  import opened Compression
  import opened UnionView
  import opened UnionLookup
  import opened UnionChanges
  import opened UnionReaddir

  // ---------- Is the directory empty? ----------

  /** The order in which a lower directory lists its entries. */
  ghost predicate Orders(order: map<string, Node> -> seq<string>) {
    forall m: map<string, Node>, e :: e in order(m) <==> e in m
  }

  function ListAll(order: map<string, Node> -> seq<string>, layers: seq<Layer>): (r: Lists)
    ensures |r| == |layers|
    ensures forall b :: 0 <= b < |layers| ==> r[b] == if layers[b].None? then None else Some(order(layers[b].value))
  {
    seq(|layers|, b requires 0 <= b < |layers| => if layers[b].None? then None else Some(order(layers[b].value)))
  }

  /** The whiteouts of branch b that these entries add to the table. */
  function Marks(list: seq<string>, seen: set<string>, b: nat): set<(nat, string)>
    decreases |list|
  {
    if list == [] then {}
    else
      var (name, whiteout) := Strip(list[0]);
      if name in seen then Marks(list[1..], seen, b)
      else (if whiteout then {(b, name)} else {}) + Marks(list[1..], seen + {name}, b)
  }

  lemma {:induction false} MarksMembers(list: seq<string>, seen: set<string>, b: nat, c: nat, x: string)
    ensures (c, x) in Marks(list, seen, b) <==> c == b && x !in seen && FirstOf(list, x) == Some(true)
    decreases |list|
  {
    if list != [] {
      var (name, whiteout) := Strip(list[0]);
      MarksMembers(list[1..], seen, b, c, x);
      MarksMembers(list[1..], seen + {name}, b, c, x);
    }
  }

  /** readdir_util_callback over one lower directory. */
  method CheckBranch(st: DirState, list: seq<string>) returns (err: Error)
    requires st.Valid()
    modifies st`seen, st`whiteouts, st.list
    ensures st.Valid() && err == if Shown(list, old(st.seen)) == [] then Fine else ENOTEMPTY
    ensures err == Fine ==> st.seen == Met(list, old(st.seen))
    ensures err == Fine ==> st.whiteouts == old(st.whiteouts) + Marks(list, old(st.seen), st.bindex)
  {
    var i := 0;
    assert list[0..] == list;
    while i < |list|
      invariant 0 <= i <= |list| && st.Valid()
      invariant Shown(list[i..], st.seen) == Shown(list, old(st.seen)) && Met(list[i..], st.seen) == Met(list, old(st.seen))
      invariant st.whiteouts + Marks(list[i..], st.seen, st.bindex) == old(st.whiteouts) + Marks(list, old(st.seen), st.bindex)
    {
      CheckStep(list, i, st.seen, st.bindex);
      hide DirState.Valid, Shown, Met, Marks;
      var (name, whiteout) := Strip(list[i]);
      var found := st.FindFilldirNode(name);
      if !found {
        if !whiteout { return ENOTEMPTY; }
        st.AddFilldirNode(name, whiteout);
      }
      i := i + 1;
    }
    err := Fine;
  }

  lemma CheckStep(list: seq<string>, i: nat, seen: set<string>, b: nat)
    requires i < |list|
    ensures var (name, whiteout) := Strip(list[i]); var rest := list[i + 1..];
            if name in seen
            then Shown(list[i..], seen) == Shown(rest, seen) && Met(list[i..], seen) == Met(rest, seen)
                 && Marks(list[i..], seen, b) == Marks(rest, seen, b)
            else if whiteout
            then Shown(list[i..], seen) == Shown(rest, seen + {name}) && Met(list[i..], seen) == Met(rest, seen + {name})
                 && Marks(list[i..], seen, b) == {(b, name)} + Marks(rest, seen + {name}, b)
            else Shown(list[i..], seen) != []
  {
    var name := Strip(list[i]).0;
    assert list[i..][1..] == list[i + 1..];
    if name in seen { assert seen + {name} == seen; }
    assert [] + Shown(list[i + 1..], seen + {name}) == Shown(list[i + 1..], seen + {name});
  }

  /** The loop of check_empty: all goes well exactly when the merged listing is empty, and then the table
      holds every whiteout of the leftmost directory. */
  method CheckEmpty(st: DirState, dirs: Lists, first: nat) returns (err: Error)
    requires st.Valid() && st.seen == {} && st.whiteouts == {}
    requires first < |dirs| && dirs[first].Some? && forall b :: 0 <= b < first ==> dirs[b].None?
    modifies st, st.list
    ensures st.Valid() && err == if Merged(dirs) == [] then Fine else ENOTEMPTY
    ensures err == Fine ==> forall x :: (first, x) in st.whiteouts <==> FirstOf(dirs[first].value, x) == Some(true)
  {
    var b: nat := 0;
    while b < |dirs|
      invariant b <= |dirs| && st.Valid() && (Rest(dirs, b, 0, st.seen) == [] <==> Merged(dirs) == [])
      invariant b <= first ==> st.seen == {} && st.whiteouts == {}
      invariant b > first ==> forall x :: (first, x) in st.whiteouts <==> FirstOf(dirs[first].value, x) == Some(true)
    {
      RestStep(dirs, b, st.seen);
      hide *;
      if dirs[b].Some? {
        st.bindex := b;
        ghost var seen, whiteouts := st.seen, st.whiteouts;
        err := CheckBranch(st, dirs[b].value);
        if err != Fine { return; }
        FirstMarks(dirs[b].value, seen, b, first);
      }
      b := b + 1;
    }
    err := Fine;
  }

  lemma RestStep(dirs: Lists, b: nat, seen: set<string>)
    requires b < |dirs|
    ensures Rest(dirs, b, 0, seen) ==
            if dirs[b].None? then Rest(dirs, b + 1, 0, seen)
            else Shown(dirs[b].value, seen) + Rest(dirs, b + 1, 0, Met(dirs[b].value, seen))
  {
    if dirs[b].Some? { assert dirs[b].value[0..] == dirs[b].value; }
  }

  lemma FirstMarks(list: seq<string>, seen: set<string>, b: nat, first: nat)
    ensures forall x :: (first, x) in Marks(list, seen, b) <==> b == first && x !in seen && FirstOf(list, x) == Some(true)
  {
    forall x ensures (first, x) in Marks(list, seen, b) <==> b == first && x !in seen && FirstOf(list, x) == Some(true) {
      MarksMembers(list, seen, b, first, x);
    }
  }

  // ---------- Removing the whiteouts ----------

  function WhiteoutsOf(marks: set<(nat, string)>, b: nat): (r: set<string>)
    ensures forall e :: e in r <==> exists x :: (b, x) in marks && e == Wh(x)
  {
    set p | p in marks && p.0 == b :: Wh(p.1)
  }

  /** The names of the whiteouts of branch b in the first n entries of a chain, as file names. */
  function MarkedNames(chain: seq<FilldirNode>, n: nat, b: nat): (r: set<string>)
    requires n <= |chain|
    ensures forall e :: e in r <==> exists k :: 0 <= k < n && chain[k].bindex == b && chain[k].whiteout && e == Wh(chain[k].name)
  {
    set k | 0 <= k < n && chain[k].bindex == b && chain[k].whiteout :: Wh(chain[k].name)
  }

  /** delete_whiteouts in branch b, whose directory holds `entries`. */
  method DeleteWhiteouts(st: DirState, b: nat, entries: map<string, Node>) returns (left: map<string, Node>)
    requires st.Valid()
    ensures left == entries - WhiteoutsOf(st.whiteouts, b)
  {
    left := entries;
    ghost var gone: set<string> := {};
    var i := 0;
    while i < st.list.Length
      invariant 0 <= i <= st.list.Length && left == entries - gone && gone <= WhiteoutsOf(st.whiteouts, b)
      invariant forall c :: 0 <= c < i ==> MarkedNames(st.list[c], |st.list[c]|, b) <= gone
    {
      ghost var before := gone;
      left, gone := DeleteChain(st, b, i, entries, left, gone);
      i := i + 1;
    }
    AllGone(st, b, gone);
  }

  method DeleteChain(st: DirState, b: nat, i: nat, ghost entries: map<string, Node>, left: map<string, Node>, ghost gone: set<string>)
    returns (left': map<string, Node>, ghost gone': set<string>)
    requires st.Valid() && i < st.list.Length && left == entries - gone && gone <= WhiteoutsOf(st.whiteouts, b)
    ensures left' == entries - gone' && gone <= gone' <= WhiteoutsOf(st.whiteouts, b)
    ensures MarkedNames(st.list[i], |st.list[i]|, b) <= gone'
  {
    left', gone' := left, gone;
    var chain := st.list[i];
    var k := 0;
    while k < |chain|
      invariant 0 <= k <= |chain| && left' == entries - gone' && gone <= gone' <= WhiteoutsOf(st.whiteouts, b)
      invariant MarkedNames(chain, k, b) <= gone'
    {
      if chain[k].bindex == b && chain[k].whiteout {
        MarkOf(st, i, k);
        left' := left' - {Wh(chain[k].name)};
        gone' := gone' + {Wh(chain[k].name)};
      }
      k := k + 1;
    }
  }

  lemma MarkOf(st: DirState, i: nat, k: nat)
    requires st.Valid() && i < st.list.Length && k < |st.list[i]| && st.list[i][k].whiteout
    ensures (st.list[i][k].bindex, st.list[i][k].name) in st.whiteouts
  {
    var node := st.list[i][k];
    assert node == FilldirNode(node.name, node.hash, node.bindex, true);
    assert MarkedIn(st.list[st.fullNameHash(node.name) % st.list.Length], node.bindex, node.name);
  }

  lemma AllGone(st: DirState, b: nat, gone: set<string>)
    requires st.Valid() && gone <= WhiteoutsOf(st.whiteouts, b)
    requires forall c :: 0 <= c < st.list.Length ==> MarkedNames(st.list[c], |st.list[c]|, b) <= gone
    ensures gone == WhiteoutsOf(st.whiteouts, b)
  {
    forall e | e in WhiteoutsOf(st.whiteouts, b) ensures e in gone {
      var x :| (b, x) in st.whiteouts && e == Wh(x);
      var c := st.fullNameHash(x) % st.list.Length;
      assert MarkedIn(st.list[c], b, x);
      assert e in MarkedNames(st.list[c], |st.list[c]|, b);
    }
  }

  // ---------- The directories that are looked into ----------

  /** The lower directories up to branch `end`. */
  function Considered(hidden: seq<Hidden>, end: int): (r: seq<Layer>)
    ensures |r| == |hidden| && forall j :: 0 <= j < |r| ==> r[j] == if j <= end then DirOf(hidden[j]) else None
  {
    seq(|hidden|, j requires 0 <= j < |hidden| => if j <= end then DirOf(hidden[j]) else None)
  }

  function CheckedEnd(bend: int, bopaque: int): int { if 0 <= bopaque < bend then bopaque else bend }

  /** What a full lookup leaves behind for a directory: its lower dentries are `before`, the leftmost in
      branch s, and o is the branch that ended the search, or -1. */
  ghost predicate FoundDir(layers: seq<Layer>, name: string, before: seq<Hidden>, s: int, o: int) {
    && HasDir(layers) && |before| == |layers| && FirstDir(layers) <= s < |layers| && -1 <= o < |layers|
    && before[s] != Null && (forall j :: 0 <= j < |before| && before[j] != Null ==> s <= j)
    && (forall j :: 0 <= j < |before| ==> Sub(layers, name, 0)[j] == DirOf(before[j]))
    && (forall j :: 0 <= j < |before| && before[j] == Null && !Empty(layers, name, j) ==> s < j && 0 <= o <= j)
    && (o >= 0 ==> s <= o && Ends(layers, name, o) && (before[o] == Null ==> Stops(layers[o], name)))
    && (o >= 0 ==> forall j :: o < j < |before| ==> before[j] == Null)
  }

  lemma IsFoundDir(d: Dentry, layers: seq<Layer>, name: string)
    requires HasDir(layers) && d.Found(layers, name) && Of(layers[d.bstart])[name].Dir?
    ensures FoundDir(layers, name, d.hidden, d.bstart, d.bopaque)
  {
    d.FoundFacts(layers, name);
    forall j | 0 <= j < |layers| && d.hidden[j] == Null && !Empty(layers, name, j)
      ensures d.bstart < j && 0 <= d.bopaque <= j
    {
    }
  }

  /** A partial lookup found `hidden`, and the search ends in branch bopaque now. */
  ghost predicate LookedBehind(layers: seq<Layer>, name: string, before: seq<Hidden>, o: int, hidden: seq<Hidden>, bopaque: int) {
    && HasDir(layers) && |before| == |layers|
    && var w := PartialStop(layers, before, name, FirstDir(layers) + 1);
       Refilled(hidden, layers, before, name, w + 1) && bopaque == if w < |layers| then w else o
  }

  /** A partial lookup goes on behind an opaque directory, and where it meets another branch that ends a
      search it forgets about the first: the check then looks into the directories between as well. It
      looks into what the view consists of exactly when there are none. */
  lemma ConsideredExactly(layers: seq<Layer>, name: string, before: seq<Hidden>, s: int, o: int, hidden: seq<Hidden>, bend: int, bopaque: int)
    requires FoundDir(layers, name, before, s, o) && LookedBehind(layers, name, before, o, hidden, bopaque)
    requires bend < |layers| && forall j :: 0 <= j < |hidden| && hidden[j] != Null ==> j <= bend
    ensures var w := PartialStop(layers, before, name, FirstDir(layers) + 1);
            Considered(hidden, CheckedEnd(bend, bopaque)) == Sub(layers, name, 0)
            <==> !(o >= 0 && before[o] != Null && w < |layers| && exists j :: o < j <= w && DirOf(hidden[j]).Some?)
  {
    var w := PartialStop(layers, before, name, FirstDir(layers) + 1);
    var seen, sub := Considered(hidden, CheckedEnd(bend, bopaque)), Sub(layers, name, 0);
    LookedFurther(layers, name, before, s, o, hidden, w);
    if o >= 0 && before[o] != Null && w < |layers| {
      assert before[w] == Null && !Empty(layers, name, w);
      if exists j :: o < j <= w && DirOf(hidden[j]).Some? {
        var j :| o < j <= w && DirOf(hidden[j]).Some?;
        assert seen[j] != sub[j];
      } else {
        assert forall j :: 0 <= j < |sub| ==> seen[j] == sub[j];
      }
    } else {
      assert forall j :: 0 <= j < |sub| ==> seen[j] == sub[j];
    }
  }

  /** A partial lookup of a directory adds something only behind an opaque directory. */
  lemma LookedFurther(layers: seq<Layer>, name: string, before: seq<Hidden>, s: int, o: int, hidden: seq<Hidden>, w: nat)
    requires FoundDir(layers, name, before, s, o)
    requires w == PartialStop(layers, before, name, FirstDir(layers) + 1) && Refilled(hidden, layers, before, name, w + 1)
    ensures forall j :: 0 <= j < |layers| ==> hidden[j] == before[j] || (0 <= o < j <= w && before[o] != Null)
    ensures o >= 0 && before[o] == Null ==> w == o
    ensures o < 0 ==> w == |layers|
    ensures 0 <= o && w < |layers| && before[o] != Null ==> o < w
  {
    if o >= 0 && before[o] == Null {
      StopHere(layers, before, name, FirstDir(layers) + 1, o);
    }
    forall j | 0 <= j < |layers|
      ensures hidden[j] == before[j] || (0 <= o < j <= w && before[o] != Null)
    {
      if before[j] == Null && !Empty(layers, name, j) { assert 0 <= o <= j; }
    }
  }

  /** What is looked into is what is seen, and possibly more behind branch o. */
  lemma SeenIsConsidered(layers: seq<Layer>, name: string, before: seq<Hidden>, s: int, o: int, hidden: seq<Hidden>, bend: int, bopaque: int)
    requires FoundDir(layers, name, before, s, o) && LookedBehind(layers, name, before, o, hidden, bopaque)
    requires bend < |layers| && forall j :: 0 <= j < |hidden| && hidden[j] != Null ==> j <= bend
    ensures var seen, sub := Considered(hidden, CheckedEnd(bend, bopaque)), Sub(layers, name, 0);
            forall j :: 0 <= j < |layers| ==> if 0 <= o < j then sub[j] == None else seen[j] == sub[j]
  {
    LookedFurther(layers, name, before, s, o, hidden, PartialStop(layers, before, name, FirstDir(layers) + 1));
  }

  lemma {:induction false} StopHere(layers: seq<Layer>, hidden: seq<Hidden>, name: string, i: nat, w: nat)
    requires |hidden| == |layers| && i <= w < |layers| && hidden[w] == Null && Ends(layers, name, w)
    requires forall j :: i <= j < w && hidden[j] == Null ==> !Ends(layers, name, j)
    ensures PartialStop(layers, hidden, name, i) == w
    decreases w - i
  {
    if i < w { StopHere(layers, hidden, name, i + 1, w); }
  }

  // ---------- Is the answer right? ----------

  /** A directory behind branch o lists a name about which no directory that is seen has an entry. */
  ghost predicate NewBehind(sub: Lists, seen: Lists, o: int)
    requires |sub| == |seen| && -1 <= o < |seen|
  {
    exists x :: FirstIn(sub, 0, x) == None && FirstIn(seen, o + 1, x) == Some(false)
  }

  lemma {:induction false} FirstNone(dirs: Lists, b: nat, x: string)
    requires b <= |dirs| && forall j :: b <= j < |dirs| ==> dirs[j].None?
    ensures FirstIn(dirs, b, x) == None
    decreases |dirs| - b
  {
    if b < |dirs| { FirstNone(dirs, b + 1, x); }
  }

  lemma {:induction false} FirstBoth(sub: Lists, seen: Lists, o: int, b: nat, x: string)
    requires |sub| == |seen| && 0 <= o < |sub| && b <= o + 1
    requires forall j :: 0 <= j < |sub| ==> if o < j then sub[j] == None else seen[j] == sub[j]
    ensures FirstIn(seen, b, x) == if FirstIn(sub, b, x).Some? then FirstIn(sub, b, x) else FirstIn(seen, o + 1, x)
    decreases o + 1 - b
  {
    if b == o + 1 {
      FirstNone(sub, b, x);
    } else {
      FirstBoth(sub, seen, o, b + 1, x);
    }
  }

  /** Nothing is listed exactly when no name's first entry is the name itself. */
  lemma MergedEmpty(dirs: Lists)
    ensures Merged(dirs) == [] <==> forall x :: FirstIn(dirs, 0, x) != Some(false)
  {
    forall x ensures x in Merged(dirs) <==> FirstIn(dirs, 0, x) == Some(false) {
      RestMembers(dirs, 0, {}, x);
    }
    if Merged(dirs) != [] {
      var x := Merged(dirs)[0];
      assert FirstIn(dirs, 0, x) == Some(false);
    }
  }

  /** The check finds nothing exactly when what is seen is empty and the directories it has no business
      with add no name. */
  lemma CheckedExactly(sub: Lists, seen: Lists, o: int)
    requires |sub| == |seen| && -1 <= o < |sub|
    requires forall j :: 0 <= j < |sub| ==> if 0 <= o < j then sub[j] == None else seen[j] == sub[j]
    ensures Merged(seen) == [] <==> Merged(sub) == [] && !NewBehind(sub, seen, o)
  {
    MergedEmpty(seen);
    MergedEmpty(sub);
    if o < 0 {
      assert seen == sub;
    } else if Merged(sub) != [] {
      var x :| FirstIn(sub, 0, x) == Some(false);
      FirstBoth(sub, seen, o, 0, x);
      assert FirstIn(seen, 0, x) == Some(false);
    } else if NewBehind(sub, seen, o) {
      var x :| FirstIn(sub, 0, x) == None && FirstIn(seen, o + 1, x) == Some(false);
      FirstBoth(sub, seen, o, 0, x);
      assert FirstIn(seen, 0, x) == Some(false);
    } else {
      forall x ensures FirstIn(seen, 0, x) != Some(false) {
        FirstBoth(sub, seen, o, 0, x);
        assert FirstIn(sub, 0, x) != Some(false);
      }
    }
  }

  /** A union directory with an empty listing shows no name. */
  lemma EmptyShowsNothing(layers: seq<Layer>, dirs: Lists, x: string)
    requires ListsOf(layers, dirs) && Merged(dirs) == [] && x != ""
    ensures View(layers, x) == Nothing
  {
    if ValidName(x) {
      MergedEmpty(dirs);
      FirstAgainstTop(layers, dirs, x, 0);
    }
  }

  // ---------- rmdir ----------

  predicate OnlyWhiteouts(entries: map<string, Node>) { forall e :: e in entries ==> Strip(e).1 }

  /** The entries that are no whiteouts. The mark of an opaque directory has the form of one. */
  function Unmarked(entries: map<string, Node>): map<string, Node> { map e | e in entries && !Strip(e).1 :: entries[e] }

  lemma {:induction false} FirstOfAny(list: seq<string>, e: string)
    requires e in list
    ensures FirstOf(list, Strip(e).0).Some?
    decreases |list|
  {
    if list[0] != e { FirstOfAny(list[1..], e); }
  }

  lemma {:induction false} WhiteoutListed(list: seq<string>, x: string)
    requires FirstOf(list, x) == Some(true)
    ensures x != "" && Wh(x) in list
    decreases |list|
  {
    if Strip(list[0]).0 == x {
      assert list[0] == WHITEOUT + list[0][4..];
    } else {
      WhiteoutListed(list[1..], x);
    }
  }

  lemma StripWh(x: string)
    requires x != ""
    ensures Strip(Wh(x)) == (x, true)
  {
    assert Wh(x)[4..] == x;
  }

  /** Deleting the recorded whiteouts of an empty directory deletes every whiteout, and leaves nothing exactly
      when there is nothing else. */
  lemma WhiteoutsAreAll(entries: map<string, Node>, list: seq<string>, marks: set<(nat, string)>, b: nat)
    requires (forall e :: e in list <==> e in entries) && Shown(list, {}) == []
    requires forall x :: (b, x) in marks <==> FirstOf(list, x) == Some(true)
    ensures entries - WhiteoutsOf(marks, b) == Unmarked(entries)
    ensures Unmarked(entries) == map[] <==> OnlyWhiteouts(entries)
  {
    forall e | e in entries ensures e in WhiteoutsOf(marks, b) <==> Strip(e).1 {
      if Strip(e).1 {
        var x := Strip(e).0;
        FirstOfAny(list, e);
        ShownMembers(list, {}, x);
        var whiteout: bool := FirstOf(list, x).value;
        assert FirstOf(list, x) == Some(whiteout);
        assert e == Wh(x);
      } else {
        forall x | (b, x) in marks ensures Wh(x) != e {
          WhiteoutListed(list, x);
          StripWh(x);
        }
      }
    }
    if !OnlyWhiteouts(entries) {
      var e :| e in entries && !Strip(e).1;
      assert e in Unmarked(entries);
    }
  }

  /** unionfs_rmdir_first: the whiteouts go, then the directory, unless something is left in it. */
  method RmdirFirst(u: Union, st: DirState, name: string, s: nat) returns (err: Error)
    requires u.Valid() && st.Valid() && s < |u.layers| && Has(u.layers[s], name) && Of(u.layers[s])[name].Dir?
    modifies u
    ensures u.Valid()
    ensures var left := Of(old(u.layers)[s])[name].entries - WhiteoutsOf(st.whiteouts, s);
            && err == (if !u.writable[s] then EROFS else if left == map[] then Fine else ENOTEMPTY)
            && u.layers == (if err == EROFS then old(u.layers)
                            else if err == Fine then old(u.layers)[s := Without(old(u.layers)[s], name)]
                            else old(u.layers)[s := With(old(u.layers)[s], name, Dir(left))])
  {
    if !u.writable[s] { return EROFS; }
    var left := DeleteWhiteouts(st, s, u.layers[s].value[name].entries);
    ghost var before := u.layers[s];
    u.layers := u.layers[s := With(u.layers[s], name, Dir(left))];
    assert u.layers[s].Some?;
    if left != map[] { return ENOTEMPTY; }
    assert Of(before)[name := Dir(left)] - {name} == Of(before) - {name};
    u.layers := u.layers[s := Without(u.layers[s], name)];
    assert u.layers[s].Some?;
    err := Fine;
  }

  // ---------- A directory that loses its whiteouts and stays ----------

  /** What the union directory consists of when its leftmost lower directory, in branch s, has lost its
      whiteouts, and with them the mark that made it opaque. */
  function Uncovered(layers: seq<Layer>, name: string, s: nat, entries: map<string, Node>): seq<Layer>
    requires s < |layers|
  {
    Absent(s) + [Some(Unmarked(entries))] + Sub(layers, name, s + 1)
  }

  lemma UncoveredSeen(layers: seq<Layer>, name: string, s: nat, entries: map<string, Node>)
    requires s < |layers| && ValidName(name) && !Stops(layers[s], name) && forall j :: 0 <= j < s ==> Empty(layers, name, j)
    ensures View(layers[s := With(layers[s], name, Dir(Unmarked(entries)))], name) == DirSeen(Uncovered(layers, name, s, entries))
  {
    var after := layers[s := With(layers[s], name, Dir(Unmarked(entries)))];
    assert |Wh(name)| == |name| + 4;
    forall j | 0 <= j < s ensures Empty(after, name, j) && !Has(after[j], name) && !Stops(after[j], name) {
      assert Empty(layers, name, j);
    }
    TopIs(after, name, 0, s);
    EmptyBefore(after, name, s);
    SameBehind(layers, after, name, s + 1);
    assert !IsOpaque(Unmarked(entries)) by { StripWh(OPAQUE); }
    assert Sub(after, name, s) == [Some(Unmarked(entries))] + Sub(layers, name, s + 1);
    AbsentBefore(Sub(after, name, 0), s, Some(Unmarked(entries)), Sub(layers, name, s + 1));
  }

  lemma AbsentBefore(sub: seq<Layer>, s: nat, first: Layer, rest: seq<Layer>)
    requires s < |sub| && (forall j :: 0 <= j < s ==> sub[j] == None) && sub[s..] == [first] + rest
    ensures sub == Absent(s) + [first] + rest
  {
    assert sub == sub[..s] + sub[s..] && sub[..s] == Absent(s);
  }

  lemma {:induction false} TopShift(layers: seq<Layer>, x: string, k: nat, i: nat)
    requires k + i <= |layers|
    ensures Top(layers, x, k + i).Some? <==> Top(layers[k..], x, i).Some?
    decreases |layers| - i
  {
    if k + i < |layers| { TopShift(layers, x, k, i + 1); }
  }

  /** It shows the names that stood beside their whiteouts, and whatever lies behind, hidden before or not. */
  lemma UncoveredShows(layers: seq<Layer>, name: string, s: nat, entries: map<string, Node>, x: string)
    requires s < |layers| && ValidName(x) && x != ""
    ensures View(Uncovered(layers, name, s, entries), x) != Nothing
       <==> x in entries || Top(Sub(layers, name, s + 1), x, 0).Some?
  {
    var all := Uncovered(layers, name, s, entries);
    NothingBefore(all, x, s);
    StripWh(x);
    assert !Strip(x).1;
    assert all[s] == Some(Unmarked(entries)) && all[s + 1..] == Sub(layers, name, s + 1);
    TopShift(all, x, s + 1, 0);
  }

  /** unionfs_rmdir in whiteout mode. It is refused as long as the merged listing shows a name; otherwise
      it succeeds where the leftmost directory can be removed, or a whiteout put left of it. Where that
      directory turns out not to be empty its whiteouts are gone all the same. */
  method Rmdir(u: Union, d: Dentry, name: string, order: map<string, Node> -> seq<string>, size: nat, fullNameHash: string -> nat)
    returns (err: Error)
    requires u.Valid() && ValidName(name) && d.Found(u.layers, name) && Of(u.layers[d.bstart])[name].Dir?
    requires Orders(order) && size > 0
    modifies u, d
    ensures u.Valid() && SameElse(old(u.layers), u.layers, name) && ReadOnlyKept(u.writable, old(u.layers), u.layers)
    ensures err == Fine ==> View(u.layers, name) == Nothing
    ensures err == Fine ==> forall x :: x != "" ==> View(Sub(old(u.layers), name, 0), x) == Nothing
    ensures LookedBehind(old(u.layers), name, old(d.hidden), old(d.bopaque), d.hidden, d.bopaque) && old(-1 <= d.bopaque < |u.layers|)
    ensures d.bend < |d.hidden| && forall j :: 0 <= j < |d.hidden| && d.hidden[j] != Null ==> j <= d.bend
    ensures var sub := ListAll(order, Sub(old(u.layers), name, 0));
            var seen := ListAll(order, Considered(d.hidden, CheckedEnd(d.bend, d.bopaque)));
            var empty := Merged(sub) == [] && !NewBehind(sub, seen, old(d.bopaque));
            && (!empty ==> err == ENOTEMPTY && u.layers == old(u.layers))
            && (empty ==> Removed(u.writable, old(u.layers), u.layers, name, old(d.bstart), err))
  {
    ghost var entries := Of(u.layers[d.bstart])[name].entries;
    ghost var layers := u.layers;
    ghost var sub := ListAll(order, Sub(layers, name, 0));
    assert !Stops(u.layers[d.bstart], name);
    var st;
    err, st := CheckDir(u, d, name, order, size, fullNameHash);
    if Merged(sub) == [] {
      forall x | x != "" ensures View(Sub(layers, name, 0), x) == Nothing {
        EmptyShowsNothing(Sub(layers, name, 0), sub, x);
      }
    }
    if err == Fine {
      err := RemoveEmpty(u, d.hidden, name, d.bstart, st, entries, order(entries));
    }
  }

  /** How the removal of an empty directory ends. The leftmost lower directory is removed, and a whiteout put in
      its place or left of it; but what stands in it beside its own whiteout keeps it, and then is seen again,
      as is everything that its whiteouts or its mark had hidden. */
  ghost predicate Removed(writable: seq<bool>, layers: seq<Layer>, now: seq<Layer>, name: string, s: int, err: Error) {
    && 0 <= s < |layers| == |writable| == |now| && Has(layers[s], name) && Of(layers[s])[name].Dir?
    && var entries := Of(layers[s])[name].entries;
       && err == (if writable[s] && !OnlyWhiteouts(entries) then ENOTEMPTY else UnlinkResult(writable, s))
       && (err == Fine ==> View(now, name) == Nothing
                           && Unlinked(layers, now, name, if writable[s] then {s} else {}, LastWritable(writable, s)))
       && (err == ENOTEMPTY ==> View(now, name) == DirSeen(Uncovered(layers, name, s, entries))
                                && now == layers[s := Some(Of(layers[s])[name := Dir(Unmarked(entries))])])
       && (err != Fine && err != ENOTEMPTY ==> now == layers)
  }

  lemma {:induction false} SkipNone(dirs: Lists, b: nat, s: nat, seen: set<string>)
    requires b <= s <= |dirs| && forall j :: b <= j < s ==> dirs[j].None?
    ensures Rest(dirs, b, 0, seen) == Rest(dirs, s, 0, seen)
    decreases s - b
  {
    if b < s { SkipNone(dirs, b + 1, s, seen); }
  }

  method CheckDir(u: Union, d: Dentry, name: string, order: map<string, Node> -> seq<string>, size: nat, fullNameHash: string -> nat)
    returns (err: Error, st: DirState)
    requires u.Valid() && ValidName(name) && d.Found(u.layers, name) && Of(u.layers[d.bstart])[name].Dir?
    requires Orders(order) && size > 0
    modifies d
    ensures d.bstart == old(d.bstart) && d.bend < |d.hidden| == |u.layers|
    ensures LookedBehind(u.layers, name, old(d.hidden), old(d.bopaque), d.hidden, d.bopaque)
    ensures forall j :: 0 <= j < |d.hidden| && d.hidden[j] != Null ==> u.layers[j].Some? && j <= d.bend
    ensures forall j :: 0 <= j < d.bstart ==> Empty(u.layers, name, j)
    ensures var sub := ListAll(order, Sub(u.layers, name, 0));
            var seen := ListAll(order, Considered(d.hidden, CheckedEnd(d.bend, d.bopaque)));
            err == if Merged(sub) == [] && !NewBehind(sub, seen, old(d.bopaque)) then Fine else ENOTEMPTY
    ensures fresh(st) && fresh(st.list) && st.Valid()
    ensures err == Fine ==>
              var list := order(Of(u.layers[d.bstart])[name].entries);
              Shown(list, {}) == [] && forall x :: (d.bstart, x) in st.whiteouts <==> FirstOf(list, x) == Some(true)
  {
    ghost var o := d.bopaque;
    LookBehind(u, d, name);
    hide Dentry.Found, Orders;
    CheckedExactly(ListAll(order, Sub(u.layers, name, 0)), ListAll(order, Considered(d.hidden, CheckedEnd(d.bend, d.bopaque))), o);
    hide NewBehind, LookedBehind;
    err, st := CheckListing(d.hidden, CheckedEnd(d.bend, d.bopaque), d.bstart, order, size, fullNameHash);
  }

  lemma FoundBasics(d: Dentry, layers: seq<Layer>, name: string)
    requires HasDir(layers) && d.Found(layers, name)
    ensures 0 <= d.bstart <= d.bend < |d.hidden| == |layers| && (d.bopaque >= 0 ==> d.bopaque >= d.bstart)
    ensures -1 <= d.bopaque < |layers| && d.hidden[d.bstart] == Positive(Of(layers[d.bstart])[name])
    ensures forall j :: 0 <= j < |d.hidden| && d.hidden[j] != Null ==> layers[j].Some? && d.bstart <= j <= d.bend
    ensures forall j :: 0 <= j < d.bstart ==> Empty(layers, name, j)
    ensures forall j :: 0 <= j < |d.hidden| && d.hidden[j] == Null && !Empty(layers, name, j) ==> d.bstart < j
  {
    TopBefore(layers, name, 0, d.bstart);
    d.FoundFacts(layers, name);
  }

  method LookBehind(u: Union, d: Dentry, name: string)
    requires u.Valid() && ValidName(name) && d.Found(u.layers, name) && Of(u.layers[d.bstart])[name].Dir?
    modifies d
    ensures 0 <= d.bstart == old(d.bstart) < |d.hidden| == |u.layers| && d.bstart <= CheckedEnd(d.bend, d.bopaque)
    ensures d.hidden[d.bstart] == Positive(Of(u.layers[d.bstart])[name])
    ensures forall j :: 0 <= j < |d.hidden| && d.hidden[j] != Null ==> u.layers[j].Some? && d.bstart <= j <= d.bend
    ensures forall j :: 0 <= j < d.bstart ==> Empty(u.layers, name, j)
    ensures d.bend < |u.layers| && LookedBehind(u.layers, name, old(d.hidden), old(d.bopaque), d.hidden, d.bopaque)
    ensures var seen, sub, o := Considered(d.hidden, CheckedEnd(d.bend, d.bopaque)), Sub(u.layers, name, 0), old(d.bopaque);
            -1 <= o < |sub| && forall j :: 0 <= j < |sub| ==> if 0 <= o < j then sub[j] == None else seen[j] == sub[j]
  {
    FoundBasics(d, u.layers, name);
    IsFoundDir(d, u.layers, name);
    hide *;
    ghost var before, o, layers := d.hidden, d.bopaque, u.layers;
    LookOn(d, u.layers, name, o);
    LookedFacts(layers, before, d.hidden, name, d.bstart, o, d.bopaque);
    SeenIsConsidered(layers, name, before, d.bstart, o, d.hidden, d.bend, d.bopaque);
  }

  method CheckListing(hidden: seq<Hidden>, end: int, s: nat, order: map<string, Node> -> seq<string>, size: nat, fullNameHash: string -> nat)
    returns (err: Error, st: DirState)
    requires s < |hidden| && s <= end && size > 0 && hidden[s].Positive? && hidden[s].node.Dir?
    requires forall j :: 0 <= j < s ==> hidden[j] == Null
    ensures err == if Merged(ListAll(order, Considered(hidden, end))) == [] then Fine else ENOTEMPTY
    ensures fresh(st) && fresh(st.list) && st.Valid()
    ensures err == Fine ==>
              var list := order(hidden[s].node.entries);
              Shown(list, {}) == [] && forall x :: (s, x) in st.whiteouts <==> FirstOf(list, x) == Some(true)
  {
    var dirs := ListAll(order, Considered(hidden, end));
    st := new DirState(size, fullNameHash, s);
    err := CheckEmpty(st, dirs, s);
    if err == Fine {
      SkipNone(dirs, 0, s, {});
      RestStep(dirs, s, {});
    }
  }

  /** The partial lookup of a directory. */
  method LookOn(d: Dentry, layers: seq<Layer>, name: string, ghost o: int)
    requires HasDir(layers) && ValidName(name) && d.Found(layers, name) && |d.hidden| == |layers| && o == d.bopaque
    modifies d
    ensures d.bstart == old(d.bstart) && d.bend < |layers| == |d.hidden| && LookedBehind(layers, name, old(d.hidden), o, d.hidden, d.bopaque)
    ensures forall j :: 0 <= j < |layers| && d.hidden[j] != Null ==> d.bstart <= j <= d.bend
  {
    hide Dentry.Found;
    d.PartialLookup(layers, name);
  }

  lemma LookedFacts(layers: seq<Layer>, before: seq<Hidden>, hidden: seq<Hidden>, name: string, s: nat, o: int, bopaque: int)
    requires FoundDir(layers, name, before, s, o) && LookedBehind(layers, name, before, o, hidden, bopaque)
    requires forall j :: 0 <= j < |before| && before[j] != Null ==> layers[j].Some?
    ensures hidden[s] == before[s] && forall j :: 0 <= j < |hidden| && hidden[j] != Null ==> layers[j].Some?
    ensures bopaque >= 0 ==> s <= bopaque
  {
    var w := PartialStop(layers, before, name, FirstDir(layers) + 1);
    if w < |layers| { assert before[w] == Null && !Empty(layers, name, w); }
  }

  method RemoveEmpty(u: Union, hidden: seq<Hidden>, name: string, s: nat, st: DirState,
                     ghost entries: map<string, Node>, ghost list: seq<string>)
    returns (err: Error)
    requires u.Valid() && st.Valid() && s < |u.layers| == |hidden| && ValidName(name)
    requires Has(u.layers[s], name) && Of(u.layers[s])[name] == Dir(entries) && !Stops(u.layers[s], name)
    requires forall j :: 0 <= j < s ==> Empty(u.layers, name, j) && hidden[j] == Null
    requires forall j :: 0 <= j < |hidden| && hidden[j] != Null ==> u.layers[j].Some?
    requires (forall e :: e in list <==> e in entries) && Shown(list, {}) == []
    requires forall x :: (s, x) in st.whiteouts <==> FirstOf(list, x) == Some(true)
    modifies u
    ensures u.Valid() && SameElse(old(u.layers), u.layers, name) && ReadOnlyKept(u.writable, old(u.layers), u.layers)
    ensures Removed(u.writable, old(u.layers), u.layers, name, s, err)
  {
    ghost var layers := u.layers;
    WhiteoutsAreAll(entries, list, st.whiteouts, s);
    assert SameElse(layers, layers, name) && ReadOnlyKept(u.writable, layers, layers);
    err := RmdirFirst(u, st, name, s);
    if err == Fine {
      DirCovered(layers, u.writable, hidden, name, s);
      err := u.CreateWhiteout(hidden, name, s);
    } else if err == EROFS {
      if s == 0 { return; }
      DirCoveredLeft(layers, u.writable, hidden, name, s);
      err := u.CreateWhiteout(hidden, name, s - 1);
    } else {
      var left := Dir(entries - WhiteoutsOf(st.whiteouts, s));
      UncoveredSeen(layers, name, s, entries);
      WithSame(layers[s], name, name, left);
      ChangedOne(layers, u.writable, name, s, With(layers[s], name, left));
    }
  }

  lemma DirCovered(layers: seq<Layer>, writable: seq<bool>, hidden: seq<Hidden>, name: string, s: nat)
    requires |layers| == |writable| == |hidden| && s < |layers| && writable[s] && forall j :: 0 <= j < s ==> Empty(layers, name, j)
    ensures var removed := layers[s := Without(layers[s], name)];
            && WhiteoutBranch(removed, writable, hidden, name, s) == s
            && View(WhitedOut(removed, name, s), name) == Nothing && SameElse(layers, WhitedOut(removed, name, s), name)
            && ReadOnlyKept(writable, layers, WhitedOut(removed, name, s)) && Unlinked(layers, WhitedOut(removed, name, s), name, {s}, s)
  {
    WhitedOutExactly(layers, layers[s := Without(layers[s], name)], name, {s}, s);
    forall j | 0 <= j < s ensures !Has(layers[j], name) { assert Empty(layers, name, j); }
    StopsElsewhere(layers, name, s);
    RemovedFrame(layers, writable, name, s, s);
    WhiteoutHides(layers[s := Without(layers[s], name)], name, s);
  }

  lemma DirCoveredLeft(layers: seq<Layer>, writable: seq<bool>, hidden: seq<Hidden>, name: string, s: nat)
    requires |layers| == |writable| == |hidden| && 0 < s < |layers| && forall j :: 0 <= j < s ==> Empty(layers, name, j)
    ensures var b := WhiteoutBranch(layers, writable, hidden, name, s - 1);
            && b == LastWritable(writable, s - 1) && WhitedOut(layers, name, -1) == layers && (b >= 0 ==> View(WhitedOut(layers, name, b), name) == Nothing)
            && SameElse(layers, WhitedOut(layers, name, b), name) && ReadOnlyKept(writable, layers, WhitedOut(layers, name, b))
            && Unlinked(layers, WhitedOut(layers, name, b), name, {}, b)
  {
    forall j | 0 <= j < s ensures !Has(layers[j], name) && !Stops(layers[j], name) { assert Empty(layers, name, j); }
    var b := WhiteoutBranch(layers, writable, hidden, name, s - 1);
    WhitedOutFrame(layers, writable, name, b);
    WhitedOutExactly(layers, layers, name, {}, b);
    if b >= 0 { WhiteoutHides(layers, name, b); }
  }

  // ---------- Refused for nothing ----------

  /** The directory d is opaque and empty, and between it and a whiteout there is another d with a name in it. */
  function Shadowed(x: string): (layers: seq<Layer>)
    ensures HasDir(layers)
  {
    var layers := [Some(map["d" := Dir(map[Wh(OPAQUE) := File([])])]), Some(map["d" := Dir(map[x := File([])])]), Some(map[Wh("d") := File([])])];
    assert layers[0].Some?;
    layers
  }

  lemma ShadowedSeen(x: string)
    requires ValidName(x) && x != ""
    ensures var layers := Shadowed(x);
            && FirstDir(layers) == 0 && Top(layers, "d", 0) == Some(0)
            && Sub(layers, "d", 0) == [Some(map[Wh(OPAQUE) := File([])]), None, None]
            && !Ends(layers, "d", 1) && !Empty(layers, "d", 1) && Stops(layers[2], "d") && !Has(layers[2], "d")
  {
    var layers := Shadowed(x);
    assert Wh("d") == ".wh.d" && ValidName("d");
    TopIs(layers, "d", 0, 0);
    WhDistinct(OPAQUE, x);
  }

  lemma ShadowedBehind(x: string, order: map<string, Node> -> seq<string>, hidden: seq<Hidden>, bend: int)
    requires ValidName(x) && x != "" && Orders(order) && |hidden| == 3 && 1 <= bend < 3
    requires hidden[1] == Positive(Dir(map[x := File([])]))
    ensures NewBehind(ListAll(order, Sub(Shadowed(x), "d", 0)), ListAll(order, Considered(hidden, CheckedEnd(bend, 2))), 0)
  {
    ShadowedSeen(x);
    var sub, seen := ListAll(order, Sub(Shadowed(x), "d", 0)), ListAll(order, Considered(hidden, CheckedEnd(bend, 2)));
    var front, behind := map[Wh(OPAQUE) := File([])], map[x := File([])];
    WhDistinct(OPAQUE, x);
    WhDistinct(x, OPAQUE);
    FirstOfSome(order(front), x);
    FirstOfSome(order(behind), x);
    assert x in order(behind) && Wh(x) !in order(behind) && x !in order(front) && Wh(x) !in order(front);
    var whiteout: bool := FirstOf(order(behind), x).value;
    assert FirstOf(order(behind), x) == Some(whiteout);
    FirstNone(sub, 1, x);
    assert FirstIn(sub, 0, x) == None;
    assert FirstIn(seen, 1, x) == Some(false);
  }

  /** A directory that shows nothing and is refused all the same. */
  method RefusedThoughEmpty(order: map<string, Node> -> seq<string>, x: string, size: nat, fullNameHash: string -> nat)
    returns (u: Union, err: Error)
    requires Orders(order) && ValidName(x) && x != "" && size > 0
    ensures fresh(u) && err == ENOTEMPTY && u.layers == Shadowed(x)
    ensures View(u.layers, "d").DirSeen? && forall y :: View(View(u.layers, "d").layers, y) == Nothing
  {
    u := new Union(Shadowed(x), [true, true, true]);
    ShadowedSeen(x);
    var d := new Dentry();
    err := d.Lookup(u.layers, "d");
    ghost var before := d.hidden;
    ShadowedFound(x, d);
    err := Rmdir(u, d, "d", order, size, fullNameHash);
    assert PartialStop(Shadowed(x), before, "d", 1) == 2;
    assert d.hidden[1] == Refill(Shadowed(x), before, "d", 3, 1);
    ShadowedBehind(x, order, d.hidden, d.bend);
    forall y ensures View(Sub(Shadowed(x), "d", 0), y) == Nothing {
      if ValidName(y) {
        WhDistinct(OPAQUE, y);
        TopNone(Sub(Shadowed(x), "d", 0), y, 0, 3);
      }
    }
  }

  lemma ShadowedFound(x: string, d: Dentry)
    requires ValidName(x) && x != "" && d.Found(Shadowed(x), "d")
    ensures d.bstart == 0 && d.bopaque == 0 && |d.hidden| == 3 && d.hidden[1] == Null && d.hidden[2] == Null
  {
    ShadowedSeen(x);
    assert Sub(Shadowed(x), "d", 0)[1] == DirOf(d.hidden[1]);
  }

  // ---------- Refused, and more to be seen than before ----------

  const FRONT := map[".wh.b" := File([]), "b" := File([1]), ".wh.a" := File([])]

  /** In the leftmost d, b stands beside its whiteout, and a is hidden; there is an a in the next. */
  function Hiding(): (layers: seq<Layer>)
    ensures HasDir(layers)
  {
    var layers := [Some(map["d" := Dir(FRONT)]), Some(map["d" := Dir(map["a" := File([2])])])];
    assert layers[0].Some?;
    layers
  }

  lemma {:induction false} FirstIsName(list: seq<string>, x: string)
    ensures FirstOf(list, x) == Some(false) ==> x in list && Strip(x) == (x, false)
    decreases |list|
  {
    if list != [] && Strip(list[0]).0 != x { FirstIsName(list[1..], x); }
  }

  lemma HidingEmpty(order: map<string, Node> -> seq<string>)
    requires Orders(order) && FirstOf(order(FRONT), "b") == Some(true)
    ensures var layers := Hiding();
            && FirstDir(layers) == 0 && Top(layers, "d", 0) == Some(0) && !Stops(layers[0], "d")
            && Sub(layers, "d", 0) == [Some(FRONT), Some(map["a" := File([2])])]
            && !Ends(layers, "d", 0) && !Ends(layers, "d", 1) && Merged(ListAll(order, Sub(layers, "d", 0))) == []
  {
    var layers := Hiding();
    assert Wh("d") == ".wh.d" && |OPAQUE| == 12 && |Wh(OPAQUE)| == 16;
    TopIs(layers, "d", 0, 0);
    var sub := ListAll(order, Sub(layers, "d", 0));
    var back := map["a" := File([2])];
    assert Sub(layers, "d", 2) == [] && Sub(layers, "d", 1) == [Some(back)];
    forall x ensures FirstIn(sub, 0, x) != Some(false) {
      FirstIsName(order(FRONT), x);
      FirstIsName(order(back), x);
      FirstOfAny(order(FRONT), ".wh.a");
      assert Strip(".wh.a") == ("a", true) && Strip(".wh.b") == ("b", true);
      assert FirstIn(sub, 2, x) == None;
    }
    MergedEmpty(sub);
  }

  /** A directory that shows nothing, cannot be removed, and then shows both. */
  method RmdirUncovers(order: map<string, Node> -> seq<string>, size: nat, fullNameHash: string -> nat) returns (u: Union, err: Error)
    requires Orders(order) && FirstOf(order(FRONT), "b") == Some(true) && size > 0
    ensures fresh(u) && err == ENOTEMPTY && Merged(ListAll(order, Sub(Hiding(), "d", 0))) == []
    ensures View(u.layers, "d").DirSeen?
    ensures View(View(u.layers, "d").layers, "a") != Nothing && View(View(u.layers, "d").layers, "b") != Nothing
  {
    u := new Union(Hiding(), [true, true]);
    HidingEmpty(order);
    var d := new Dentry();
    err := d.Lookup(u.layers, "d");
    IsFoundDir(d, u.layers, "d");
    ghost var before, o, s := d.hidden, d.bopaque, d.bstart;
    assert o == -1 && s == 0 && |Hiding()| == 2;
    hide *;
    err := Rmdir(u, d, "d", order, size, fullNameHash);
    HidingChecked(order, before, s, o, d.hidden, d.bend, d.bopaque);
    HidingRemoved(order, u.layers, err);
  }

  lemma HidingRemoved(order: map<string, Node> -> seq<string>, now: seq<Layer>, err: Error)
    requires Orders(order) && FirstOf(order(FRONT), "b") == Some(true) && Removed([true, true], Hiding(), now, "d", 0, err)
    ensures err == ENOTEMPTY && View(now, "d").DirSeen?
    ensures View(View(now, "d").layers, "a") != Nothing && View(View(now, "d").layers, "b") != Nothing
  {
    assert "b" in FRONT && !Strip("b").1 && !OnlyWhiteouts(FRONT);
    HidingUncovered(order);
  }

  lemma HidingChecked(order: map<string, Node> -> seq<string>, before: seq<Hidden>, s: int, o: int, hidden: seq<Hidden>, bend: int, bopaque: int)
    requires FoundDir(Hiding(), "d", before, s, o) && LookedBehind(Hiding(), "d", before, o, hidden, bopaque) && o == -1
    requires bend < 2 && forall j :: 0 <= j < |hidden| && hidden[j] != Null ==> j <= bend
    ensures !NewBehind(ListAll(order, Sub(Hiding(), "d", 0)), ListAll(order, Considered(hidden, CheckedEnd(bend, bopaque))), o)
  {
    SeenIsConsidered(Hiding(), "d", before, s, o, hidden, bend, bopaque);
    assert Considered(hidden, CheckedEnd(bend, bopaque)) == Sub(Hiding(), "d", 0);
  }

  lemma HidingUncovered(order: map<string, Node> -> seq<string>)
    requires Orders(order) && FirstOf(order(FRONT), "b") == Some(true)
    ensures forall x :: x in {"a", "b"} ==> View(Uncovered(Hiding(), "d", 0, FRONT), x) != Nothing
  {
    HidingEmpty(order);
    UncoveredShows(Hiding(), "d", 0, FRONT, "a");
    UncoveredShows(Hiding(), "d", 0, FRONT, "b");
    assert Sub(Hiding(), "d", 1) == Sub(Hiding(), "d", 0)[1..];
    TopIs(Sub(Hiding(), "d", 1), "a", 0, 0);
  }
}
