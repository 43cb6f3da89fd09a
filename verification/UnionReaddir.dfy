/** The merged listing of a union directory: every lower directory is read in turn, and a hash table of
    the names already met keeps out what a directory on the left has shown or whited out. */
module UnionReaddir {
  import opened Options
  import opened UnionView

  // ---------- The listing ----------

  /** The name an entry is about, and whether the entry is its whiteout. */
  function Strip(e: string): (r: (string, bool)) {
    if |e| > 4 && WHITEOUT <= e then (e[4..], true) else (e, false)
  }

  /** The names shown from these entries when those in `seen` have been met. */
  function Shown(list: seq<string>, seen: set<string>): seq<string>
    decreases |list|
  {
    if list == [] then []
    else
      var (name, whiteout) := Strip(list[0]);
      if name in seen then Shown(list[1..], seen)
      else (if whiteout then [] else [name]) + Shown(list[1..], seen + {name})
  }

  function Met(list: seq<string>, seen: set<string>): set<string>
    decreases |list|
  {
    if list == [] then seen else Met(list[1..], seen + {Strip(list[0]).0})
  }

  type Lists = seq<Option<seq<string>>>

  /** What is still to be shown at position pos of branch b. */
  function Rest(dirs: Lists, b: nat, pos: nat, seen: set<string>): seq<string>
    requires b <= |dirs| && (b < |dirs| && dirs[b].Some? ==> pos <= |dirs[b].value|)
    decreases |dirs| - b
  {
    if b == |dirs| then []
    else if dirs[b].None? then Rest(dirs, b + 1, 0, seen)
    else Shown(dirs[b].value[pos..], seen) + Rest(dirs, b + 1, 0, Met(dirs[b].value[pos..], seen))
  }

  function Merged(dirs: Lists): seq<string> { Rest(dirs, 0, 0, {}) }

  // ---------- Lower directories that are read in pieces ----------

  /** Whether the readdir of a lower file system returns when it comes to this position of this branch. */
  type Pauses = (nat, nat) -> bool

  /** Where the reading of branch b stops for good: at its end, or after a piece in which nothing was new.
      `begun` says that there was something new in this piece already. */
  function EndOf(list: seq<string>, pause: Pauses, b: nat, pos: nat, seen: set<string>, begun: bool): (e: nat)
    requires pos <= |list|
    ensures pos <= e <= |list| && (pos < |list| ==> pos < e)
    decreases |list| - pos
  {
    if pos == |list| then pos
    else
      var name := Strip(list[pos]).0;
      var wrote := begun || name !in seen;
      if pause(b, pos + 1) && !wrote then pos + 1
      else EndOf(list, pause, b, pos + 1, seen + {name}, wrote && !pause(b, pos + 1))
  }

  /** What is still to be handed out at position pos of branch b. */
  function Heard(dirs: Lists, pause: Pauses, b: nat, pos: nat, seen: set<string>): seq<string>
    requires b <= |dirs| && (b < |dirs| && dirs[b].Some? ==> pos <= |dirs[b].value|)
    decreases |dirs| - b
  {
    if b == |dirs| then []
    else if dirs[b].None? then Heard(dirs, pause, b + 1, 0, seen)
    else
      var list := dirs[b].value[pos..EndOf(dirs[b].value, pause, b, pos, seen, false)];
      Shown(list, seen) + Heard(dirs, pause, b + 1, 0, Met(list, seen))
  }

  /** Where a branch is given up, everything further on has been met before. */
  predicate NothingNew(list: seq<string>, e: nat, seen: set<string>)
    requires e <= |list|
  {
    forall k :: e <= k < |list| ==> Strip(list[k]).0 in Met(list[..e], seen)
  }

  predicate Complete(dirs: Lists, pause: Pauses, b: nat, seen: set<string>)
    requires b <= |dirs|
    decreases |dirs| - b
  {
    b < |dirs| ==>
      if dirs[b].None? then Complete(dirs, pause, b + 1, seen)
      else
        && NothingNew(dirs[b].value, EndOf(dirs[b].value, pause, b, 0, seen, false), seen)
        && Complete(dirs, pause, b + 1, Met(dirs[b].value, seen))
  }

  lemma {:induction false} ShownConcat(a: seq<string>, b: seq<string>, seen: set<string>)
    ensures Shown(a + b, seen) == Shown(a, seen) + Shown(b, Met(a, seen)) && Met(a + b, seen) == Met(b, Met(a, seen))
    decreases |a|
  {
    if a == [] {
      assert a + b == b;
    } else {
      var (name, whiteout) := Strip(a[0]);
      assert (a + b)[1..] == a[1..] + b;
      ShownConcat(a[1..], b, seen);
      ShownConcat(a[1..], b, seen + {name});
      if name in seen { assert seen + {name} == seen; }
    }
  }

  lemma {:induction false} AllMet(list: seq<string>, seen: set<string>)
    ensures Met(list, seen) == seen <==> forall k :: 0 <= k < |list| ==> Strip(list[k]).0 in seen
    ensures Met(list, seen) == seen ==> Shown(list, seen) == []
    ensures seen <= Met(list, seen)
    decreases |list|
  {
    if list != [] {
      var name := Strip(list[0]).0;
      AllMet(list[1..], seen);
      AllMet(list[1..], seen + {name});
      if name in seen {
        assert seen + {name} == seen;
        assert forall k :: 0 < k < |list| ==> list[k] == list[1..][k - 1];
      } else {
        assert name in Met(list, seen);
      }
    }
  }

  /** Cut off at e, a directory adds the same names to the table exactly when nothing new comes after e;
      and then it shows the same names. */
  lemma CutExactly(list: seq<string>, e: nat, seen: set<string>)
    requires e <= |list|
    ensures Met(list[..e], seen) == Met(list, seen) <==> NothingNew(list, e, seen)
    ensures NothingNew(list, e, seen) ==> Shown(list[..e], seen) == Shown(list, seen)
  {
    assert list == list[..e] + list[e..];
    ShownConcat(list[..e], list[e..], seen);
    AllMet(list[e..], Met(list[..e], seen));
    assert forall k :: e <= k < |list| ==> list[k] == list[e..][k - e];
    assert forall k :: 0 <= k < |list[e..]| ==> list[e..][k] == list[k + e];
  }

  /** Nothing is lost when no directory is given up too early. */
  lemma {:induction false} CompleteHearsAll(dirs: Lists, pause: Pauses, b: nat, seen: set<string>)
    requires b <= |dirs| && Complete(dirs, pause, b, seen)
    ensures Heard(dirs, pause, b, 0, seen) == Rest(dirs, b, 0, seen)
    decreases |dirs| - b
  {
    if b < |dirs| {
      if dirs[b].None? {
        CompleteHearsAll(dirs, pause, b + 1, seen);
      } else {
        var list := dirs[b].value;
        var e := EndOf(list, pause, b, 0, seen, false);
        CutExactly(list, e, seen);
        assert list[0..e] == list[..e] && list[0..] == list;
        CompleteHearsAll(dirs, pause, b + 1, Met(list, seen));
      }
    }
  }

  /** A file system that reads a directory in one piece gives up no branch. */
  lemma {:induction false} OnePiece(dirs: Lists, pause: Pauses, b: nat, seen: set<string>)
    requires b <= |dirs| && forall c: nat, p: nat :: !pause(c, p)
    ensures Complete(dirs, pause, b, seen)
    decreases |dirs| - b
  {
    if b < |dirs| {
      if dirs[b].None? {
        OnePiece(dirs, pause, b + 1, seen);
      } else {
        ReadWhole(dirs[b].value, pause, b, 0, seen, false);
        OnePiece(dirs, pause, b + 1, Met(dirs[b].value, seen));
      }
    }
  }

  lemma {:induction false} ReadWhole(list: seq<string>, pause: Pauses, b: nat, pos: nat, seen: set<string>, begun: bool)
    requires pos <= |list| && forall p: nat :: !pause(b, p)
    ensures EndOf(list, pause, b, pos, seen, begun) == |list|
    decreases |list| - pos
  {
    if pos < |list| {
      var name := Strip(list[pos]).0;
      ReadWhole(list, pause, b, pos + 1, seen + {name}, begun || name !in seen);
    }
  }

  /** A name that is lost: the piece before it holds nothing but a name shown from the left. */
  lemma GivenUpTooEarly(pause: Pauses)
    requires pause(1, 1)
    ensures var dirs := [Some(["a"]), Some(["a", "b"])];
            Merged(dirs) == ["a", "b"] && Heard(dirs, pause, 0, 0, {}) == ["a"] && !Complete(dirs, pause, 0, {})
  {
    var dirs: Lists := [Some(["a"]), Some(["a", "b"])];
    var left, right := ["a"], ["a", "b"];
    assert Strip("a") == ("a", false) && Strip("b") == ("b", false);
    assert left[0..] == left && left[0..1] == left && left[1..] == [] && right[0..] == right;
    assert right[1..] == ["b"] && right[0..1] == left && right[..1] == left;
    assert Shown(left, {}) == ["a"] && Met(left, {}) == {"a"};
    assert Shown(["b"], {"a"}) == ["b"] && Shown(right, {"a"}) == ["b"] && Shown(left, {"a"}) == [];
    assert EndOf(left, pause, 0, 0, {}, false) == 1 && EndOf(right, pause, 1, 0, {"a"}, false) == 1;
    assert Met(left, {"a"}) == {"a"} && "b" !in {"a"};
    assert Rest(dirs, 2, 0, Met(right, {"a"})) == [] && Rest(dirs, 1, 0, {"a"}) == ["b"];
    assert Heard(dirs, pause, 2, 0, {"a"}) == [] && Heard(dirs, pause, 1, 0, {"a"}) == [];
    assert Strip(right[1]).0 !in Met(right[..1], {"a"});
    assert !NothingNew(right, 1, {"a"});
    assert !Complete(dirs, pause, 1, {"a"});
  }

  // ---------- The table of names ----------

  datatype FilldirNode = FilldirNode(name: string, hash: nat, bindex: nat, whiteout: bool)

  predicate InChain(chain: seq<FilldirNode>, name: string) { exists k :: 0 <= k < |chain| && chain[k].name == name }

  predicate MarkedIn(chain: seq<FilldirNode>, b: nat, name: string) {
    exists k :: 0 <= k < |chain| && chain[k] == FilldirNode(name, chain[k].hash, b, true)
  }

  class DirState {
    const fullNameHash: string -> nat
    const list: array<seq<FilldirNode>>
    var bindex: nat
    var dirpos: nat
    ghost var seen: set<string>
    ghost var whiteouts: set<(nat, string)>   // the branch and the name of every whiteout in the table

    ghost predicate Valid()
      reads this, list
    {
      && list.Length > 0
      && (forall c :: 0 <= c < list.Length ==> forall k :: 0 <= k < |list[c]| ==>
            list[c][k].hash == fullNameHash(list[c][k].name) && list[c][k].hash % list.Length == c)
      && (forall name :: name in seen <==> InChain(list[fullNameHash(name) % list.Length], name))
      && (forall b: nat, name :: (b, name) in whiteouts <==> MarkedIn(list[fullNameHash(name) % list.Length], b, name))
    }

    /** alloc_rdstate; how the size comes about does not matter. */
    constructor (size: nat, fullNameHash: string -> nat, bindex: nat)
      requires size > 0
      ensures Valid() && seen == {} && whiteouts == {} && this.bindex == bindex && dirpos == 0 && fresh(list)
    {
      this.fullNameHash, this.bindex, dirpos := fullNameHash, bindex, 0;
      list := new seq<FilldirNode>[size](_ => []);
      seen, whiteouts := {}, {};
    }

    method FindFilldirNode(name: string) returns (found: bool)
      requires Valid()
      ensures found <==> name in seen
    {
      var hash := fullNameHash(name);
      var chain := list[hash % list.Length];
      var i := 0;
      while i < |chain|
        invariant 0 <= i <= |chain| && forall k :: 0 <= k < i ==> chain[k].name != name
      {
        if chain[i].hash == hash && chain[i].name == name { return true; }
        i := i + 1;
      }
      return false;
    }

    method AddFilldirNode(name: string, whiteout: bool)
      requires Valid()
      modifies this`seen, this`whiteouts, list
      ensures Valid() && seen == old(seen) + {name}
      ensures whiteouts == if whiteout then old(whiteouts) + {(bindex, name)} else old(whiteouts)
    {
      var hash := fullNameHash(name);
      var index := hash % list.Length;
      var node := FilldirNode(name, hash, bindex, whiteout);
      ghost var chain := list[index];
      list[index] := [node] + list[index];
      seen := seen + {name};
      if whiteout { whiteouts := whiteouts + {(bindex, name)}; }
      forall other ensures InChain([node] + chain, other) <==> other == name || InChain(chain, other) {
        ChainGrows(node, chain, other);
      }
      forall b: nat, other
        ensures MarkedIn([node] + chain, b, other) <==> (whiteout && b == bindex && other == name) || MarkedIn(chain, b, other)
      {
        MarksGrow(node, chain, b, other);
      }
    }
  }

  lemma MarksGrow(node: FilldirNode, chain: seq<FilldirNode>, b: nat, name: string)
    ensures MarkedIn([node] + chain, b, name)
       <==> (node.whiteout && b == node.bindex && name == node.name) || MarkedIn(chain, b, name)
  {
    var more := [node] + chain;
    if MarkedIn(chain, b, name) {
      var k :| 0 <= k < |chain| && chain[k] == FilldirNode(name, chain[k].hash, b, true);
      assert more[k + 1] == FilldirNode(name, more[k + 1].hash, b, true);
    }
    if node.whiteout && b == node.bindex && name == node.name {
      assert more[0] == FilldirNode(name, more[0].hash, b, true);
    }
  }

  lemma ChainGrows(node: FilldirNode, chain: seq<FilldirNode>, name: string)
    ensures InChain([node] + chain, name) <==> name == node.name || InChain(chain, name)
  {
    var more := [node] + chain;
    if InChain(chain, name) {
      var k :| 0 <= k < |chain| && chain[k].name == name;
      assert more[k + 1].name == name;
    }
    if name == node.name { assert more[0].name == name; }
  }

  // ---------- Reading ----------

  /** unionfs_filldir for one entry; `room` is how many entries the caller's buffer holds. */
  method Filldir(st: DirState, e: string, out: seq<string>, room: nat) returns (out': seq<string>, full: bool, wrote: bool)
    requires st.Valid() && |out| <= room
    modifies st`seen, st`whiteouts, st.list
    ensures st.Valid() && |out'| <= room
    ensures full ==> |out'| == room && out' == out && st.seen == old(st.seen) && Strip(e).0 !in st.seen
    ensures !full ==> st.seen == old(st.seen) + {Strip(e).0}
                      && out' == if Strip(e).0 in old(st.seen) || Strip(e).1 then out else out + [Strip(e).0]
    ensures !full ==> (wrote <==> Strip(e).0 !in old(st.seen))
    ensures !full ==> if ".wh." < e then out' == out && e[4..] in st.seen
                      else e in st.seen && out' == if e in old(st.seen) then out else out + [e]
  {
    var (name, whiteout) := Strip(e);
    out', full, wrote := out, false, false;
    var found := st.FindFilldirNode(name);
    if found {
      assert st.seen == st.seen + {name};
      return;
    }
    if !whiteout {
      if |out| == room {
        full := true;
        return;
      }
      out' := out + [name];
    }
    wrote := true;
    st.AddFilldirNode(name, whiteout);
  }

  lemma ShownStep(list: seq<string>, pos: nat, seen: set<string>, out: seq<string>)
    requires pos < |list|
    ensures var (name, whiteout) := Strip(list[pos]);
            var more := if name in seen || whiteout then out else out + [name];
            out + Shown(list[pos..], seen) == more + Shown(list[pos + 1..], seen + {name})
            && Met(list[pos..], seen) == Met(list[pos + 1..], seen + {name})
  {
    var (name, whiteout) := Strip(list[pos]);
    assert list[pos..][1..] == list[pos + 1..];
    if name in seen { assert seen + {name} == seen; }
  }

  lemma EndStep(list: seq<string>, pause: Pauses, b: nat, pos: nat, seen: set<string>, begun: bool)
    requires pos < |list|
    ensures var name := Strip(list[pos]).0;
            var wrote := begun || name !in seen;
            var e := EndOf(list, pause, b, pos, seen, begun);
            && (name !in seen ==> e == EndOf(list, pause, b, pos, seen, false))
            && if pause(b, pos + 1) && !wrote then e == pos + 1
               else e == EndOf(list, pause, b, pos + 1, seen + {name}, wrote && !pause(b, pos + 1))
  {
  }

  /** With these handed out and those met, the entries up to e add up to what they are to add up to. */
  ghost predicate Remains(list: seq<string>, e: nat, pos: nat, seen: set<string>, out: seq<string>, all: seq<string>, met: set<string>) {
    pos <= e <= |list| && out + Shown(list[pos..e], seen) == all && Met(list[pos..e], seen) == met
  }

  /** vfs_readdir of one lower directory: it goes on until the directory ends, the buffer is full, or the
      lower file system has had enough. */
  method ReadLower(st: DirState, list: seq<string>, pause: Pauses, out: seq<string>, room: nat,
                   ghost e: nat, ghost all: seq<string>, ghost met: set<string>)
    returns (out': seq<string>, full: bool, written: nat)
    requires st.Valid() && st.dirpos <= |list| && |out| <= room
    requires e == EndOf(list, pause, st.bindex, st.dirpos, st.seen, false) && Remains(list, e, st.dirpos, st.seen, out, all, met)
    modifies st`seen, st`whiteouts, st`dirpos, st.list
    ensures st.Valid() && |out'| <= room && (full ==> |out'| == room)
    ensures old(st.dirpos) <= st.dirpos <= |list| && (written > 0 ==> old(st.dirpos) < st.dirpos)
    ensures Remains(list, e, st.dirpos, st.seen, out', all, met)
    ensures if full || written > 0 then EndOf(list, pause, st.bindex, st.dirpos, st.seen, false) == e else st.dirpos == e
  {
    hide *;
    out', full, written := out, false, 0;
    while st.dirpos < |list|
      invariant st.Valid() && old(st.dirpos) <= st.dirpos <= |list| && |out'| <= room && !full
      invariant EndOf(list, pause, st.bindex, st.dirpos, st.seen, written > 0) == e
      invariant Remains(list, e, st.dirpos, st.seen, out', all, met)
      invariant written > 0 ==> old(st.dirpos) < st.dirpos
    {
      EndStep(list, pause, st.bindex, st.dirpos, st.seen, written > 0);
      var wrote;
      out', full, wrote := ReadEntry(st, list, e, out', room, all, met);
      if full { return; }
      if wrote { written := written + 1; }
      if pause(st.bindex, st.dirpos) { return; }
    }
  }

  method ReadEntry(st: DirState, list: seq<string>, ghost e: nat, out: seq<string>, room: nat, ghost all: seq<string>, ghost met: set<string>)
    returns (out': seq<string>, full: bool, wrote: bool)
    requires st.Valid() && st.dirpos < e && st.dirpos < |list| && |out| <= room
    requires Remains(list, e, st.dirpos, st.seen, out, all, met)
    modifies st`seen, st`whiteouts, st`dirpos, st.list
    ensures st.Valid() && st.dirpos == old(st.dirpos) + (if full then 0 else 1) && |out'| <= room
    ensures Remains(list, e, st.dirpos, st.seen, out', all, met)
    ensures var name := Strip(list[old(st.dirpos)]).0;
            if full then |out'| == room && st.seen == old(st.seen) && name !in st.seen
            else st.seen == old(st.seen) + {name} && (wrote <==> name !in old(st.seen))
  {
    ShownStep(list[..e], st.dirpos, st.seen, out);
    assert forall k :: 0 <= k <= e ==> list[..e][k..] == list[k..e];
    hide Shown, Met, DirState.Valid;
    out', full, wrote := Filldir(st, list[st.dirpos], out, room);
    if !full { st.dirpos := st.dirpos + 1; }
  }

  ghost predicate At(dirs: Lists, st: DirState)
    reads st
  {
    st.bindex <= |dirs| && (st.bindex < |dirs| && dirs[st.bindex].Some? ==> st.dirpos <= |dirs[st.bindex].value|)
  }

  ghost function Pending(dirs: Lists, pause: Pauses, st: DirState): seq<string>
    requires At(dirs, st)
    reads st
  {
    Heard(dirs, pause, st.bindex, st.dirpos, st.seen)
  }

  /** unionfs_readdir: a call hands out the next names, as many as there is room for; what it hands out and
      what later calls will are together what was still to come. */
  method Readdir(st: DirState, dirs: Lists, pause: Pauses, room: nat) returns (out: seq<string>, done: bool)
    requires st.Valid() && At(dirs, st)
    modifies st, st.list
    ensures st.Valid() && At(dirs, st)
    ensures out + Pending(dirs, pause, st) == old(Pending(dirs, pause, st))
    ensures |out| <= room && if done then Pending(dirs, pause, st) == [] else |out| == room
    ensures old(st.bindex) <= st.bindex && (done <==> st.bindex == |dirs|)
  {
    out, done := [], true;
    ghost var all := Pending(dirs, pause, st);
    while st.bindex < |dirs|
      invariant st.Valid() && At(dirs, st) && |out| <= room && done && old(st.bindex) <= st.bindex
      invariant out + Pending(dirs, pause, st) == all
      decreases |dirs| - st.bindex,
        if st.bindex < |dirs| && dirs[st.bindex].Some? then |dirs[st.bindex].value| - st.dirpos else 0
    {
      hide DirState.Valid, Pending, Heard, Shown, Met;
      var full, next;
      out, full, next := ReadBranch(st, dirs, pause, out, room);
      if full {
        done := false;
        break;
      }
    }
  }

  /** The body of the loop: one lower directory, or the next piece of it. */
  method ReadBranch(st: DirState, dirs: Lists, pause: Pauses, out: seq<string>, room: nat)
    returns (out': seq<string>, full: bool, next: bool)
    requires st.Valid() && At(dirs, st) && st.bindex < |dirs| && |out| <= room
    modifies st, st.list
    ensures st.Valid() && At(dirs, st) && |out'| <= room && (full ==> |out'| == room && !next)
    ensures out' + Pending(dirs, pause, st) == out + old(Pending(dirs, pause, st))
    ensures st.bindex == old(st.bindex) + if next then 1 else 0
    ensures !full && !next ==> dirs[st.bindex].Some? && old(st.dirpos) < st.dirpos
  {
    if dirs[st.bindex].None? {
      out', full, next := out, false, true;
    } else {
      var written;
      ghost var list, was, from := dirs[st.bindex].value, st.seen, st.dirpos;
      ghost var e := EndOf(list, pause, st.bindex, from, was, false);
      ghost var all, met := out + Shown(list[from..e], was), Met(list[from..e], was);
      out', full, written := ReadLower(st, dirs[st.bindex].value, pause, out, room, e, all, met);
      next := !full && written == 0;
      ReadOn(dirs, pause, st.bindex, from, was, out, st.dirpos, st.seen, out', !next);
    }
    hide *;
    if next { st.bindex, st.dirpos := st.bindex + 1, 0; }
  }

  lemma ReadOn(dirs: Lists, pause: Pauses, b: nat, from: nat, was: set<string>, out: seq<string>,
               pos: nat, seen: set<string>, out': seq<string>, more: bool)
    requires b < |dirs| && dirs[b].Some? && from <= pos <= |dirs[b].value|
    requires var list := dirs[b].value;
             var e := EndOf(list, pause, b, from, was, false);
             && Remains(list, e, pos, seen, out', out + Shown(list[from..e], was), Met(list[from..e], was))
             && if more then EndOf(list, pause, b, pos, seen, false) == e else pos == e
    ensures out + Heard(dirs, pause, b, from, was)
         == out' + if more then Heard(dirs, pause, b, pos, seen) else Heard(dirs, pause, b + 1, 0, seen)
  {
    var list := dirs[b].value;
    var e := EndOf(list, pause, b, from, was, false);
    HeardStep(dirs, pause, b, from, was, out);
    HeardStep(dirs, pause, b, pos, seen, out');
    if !more { assert list[pos..e] == [] && out' + [] == out'; }
  }

  lemma HeardStep(dirs: Lists, pause: Pauses, b: nat, pos: nat, seen: set<string>, out: seq<string>)
    requires b < |dirs| && dirs[b].Some? && pos <= |dirs[b].value|
    ensures var list := dirs[b].value[pos..EndOf(dirs[b].value, pause, b, pos, seen, false)];
            out + Heard(dirs, pause, b, pos, seen) == (out + Shown(list, seen)) + Heard(dirs, pause, b + 1, 0, Met(list, seen))
  {
  }

  // ---------- What the calls add up to ----------

  function ConcatAll(outs: seq<seq<string>>): seq<string> {
    if outs == [] then [] else outs[0] + ConcatAll(outs[1..])
  }

  lemma {:induction false} ConcatLast(outs: seq<seq<string>>, out: seq<string>, rest: seq<string>)
    ensures ConcatAll(outs + [out]) + rest == ConcatAll(outs) + (out + rest)
  {
    if outs == [] {
      assert outs + [out] == [out] && ConcatAll([out]) == out;
    } else {
      ConcatLast(outs[1..], out, rest);
      assert (outs + [out])[1..] == outs[1..] + [out];
      assert ConcatAll(outs + [out]) + rest == outs[0] + (ConcatAll(outs[1..] + [out]) + rest);
    }
  }

  /** One call after the other on the same open directory, each with a buffer of its own size: together they
      hand out what was to come, and as long as there is more to come every buffer is full. */
  method CallsAddUp(st: DirState, dirs: Lists, pause: Pauses, rooms: seq<nat>) returns (outs: seq<seq<string>>)
    requires st.Valid() && At(dirs, st)
    modifies st, st.list
    ensures st.Valid() && At(dirs, st) && |outs| == |rooms|
    ensures ConcatAll(outs) + Pending(dirs, pause, st) == old(Pending(dirs, pause, st))
    ensures forall k :: 0 <= k < |rooms| ==> |outs[k]| <= rooms[k] && (st.bindex < |dirs| ==> |outs[k]| == rooms[k])
  {
    outs := [];
    ghost var all := Pending(dirs, pause, st);
    while |outs| < |rooms|
      invariant st.Valid() && At(dirs, st) && |outs| <= |rooms| && ConcatAll(outs) + Pending(dirs, pause, st) == all
      invariant forall k :: 0 <= k < |outs| ==> |outs[k]| <= rooms[k] && (st.bindex < |dirs| ==> |outs[k]| == rooms[k])
    {
      hide *;
      var out, _ := Readdir(st, dirs, pause, rooms[|outs|]);
      ConcatLast(outs, out, Pending(dirs, pause, st));
      outs := outs + [out];
    }
  }

  /** A directory read from its beginning, whatever the sizes of the buffers: the names come in one
      order, and when it has been read to its end they are those of the merged listing exactly when none is
      misheard; in the same order, too, as long as no lower directory is given up while it has something new. */
  method ReadFromStart(dirs: Lists, pause: Pauses, rooms: seq<nat>, size: nat, fullNameHash: string -> nat)
    returns (outs: seq<seq<string>>, done: bool)
    requires size > 0
    ensures |outs| == |rooms| && forall k :: 0 <= k < |rooms| ==> |outs[k]| <= rooms[k]
    ensures ConcatAll(outs) <= Heard(dirs, pause, 0, 0, {})
    ensures if done then ConcatAll(outs) == Heard(dirs, pause, 0, 0, {}) else forall k :: 0 <= k < |rooms| ==> |outs[k]| == rooms[k]
    ensures Complete(dirs, pause, 0, {}) ==> Heard(dirs, pause, 0, 0, {}) == Merged(dirs)
    ensures done ==> (multiset(ConcatAll(outs)) == multiset(Merged(dirs)) <==> forall x :: !Misheard(dirs, pause, 0, {}, x))
  {
    HeardSameExactly(dirs, pause);
    var st := new DirState(size, fullNameHash, 0);
    outs := CallsAddUp(st, dirs, pause, rooms);
    done := st.bindex == |dirs|;
    if Complete(dirs, pause, 0, {}) { CompleteHearsAll(dirs, pause, 0, {}); }
  }

  // ---------- The listing against the lookup ----------

  /** What the first entry about the name is: a whiteout, or the name itself. */
  function FirstOf(list: seq<string>, x: string): Option<bool>
    decreases |list|
  {
    if list == [] then None
    else if Strip(list[0]).0 == x then Some(Strip(list[0]).1)
    else FirstOf(list[1..], x)
  }

  function FirstIn(dirs: Lists, b: nat, x: string): Option<bool>
    requires b <= |dirs|
    decreases |dirs| - b
  {
    if b == |dirs| then None
    else if dirs[b].Some? && FirstOf(dirs[b].value, x).Some? then FirstOf(dirs[b].value, x)
    else FirstIn(dirs, b + 1, x)
  }

  lemma {:induction false} ShownMembers(list: seq<string>, seen: set<string>, x: string)
    ensures x in Shown(list, seen) <==> x !in seen && FirstOf(list, x) == Some(false)
    ensures x in Met(list, seen) <==> x in seen || FirstOf(list, x).Some?
    ensures multiset(Shown(list, seen))[x] <= 1
    decreases |list|
  {
    if list != [] {
      var (name, whiteout) := Strip(list[0]);
      ShownMembers(list[1..], seen, x);
      ShownMembers(list[1..], seen + {name}, x);
      if name !in seen && !whiteout {
        assert Shown(list, seen) == [name] + Shown(list[1..], seen + {name});
        assert multiset([name] + Shown(list[1..], seen + {name})) == multiset{name} + multiset(Shown(list[1..], seen + {name}));
      }
    }
  }

  /** A name is listed once, or not at all, as the first entry about it in the leftmost directory says. */
  lemma {:induction false} RestMembers(dirs: Lists, b: nat, seen: set<string>, x: string)
    requires b <= |dirs|
    ensures x in Rest(dirs, b, 0, seen) <==> x !in seen && FirstIn(dirs, b, x) == Some(false)
    ensures multiset(Rest(dirs, b, 0, seen))[x] <= 1
    decreases |dirs| - b
  {
    if b < |dirs| {
      if dirs[b].None? {
        RestMembers(dirs, b + 1, seen, x);
      } else {
        var list := dirs[b].value;
        assert list[0..] == list;
        ShownMembers(list, seen, x);
        RestMembers(dirs, b + 1, Met(list, seen), x);
        assert multiset(Shown(list, seen) + Rest(dirs, b + 1, 0, Met(list, seen)))
               == multiset(Shown(list, seen)) + multiset(Rest(dirs, b + 1, 0, Met(list, seen)));
      }
    }
  }

  /** `dirs` lists the entries of the lower directories, in whatever order. */
  ghost predicate ListsOf(layers: seq<Layer>, dirs: Lists) {
    && |dirs| == |layers|
    && forall b :: 0 <= b < |layers| ==>
         (dirs[b].Some? <==> layers[b].Some?) && (layers[b].Some? ==> forall e :: e in dirs[b].value <==> e in layers[b].value)
  }

  lemma {:induction false} FirstOfSome(list: seq<string>, x: string)
    requires ValidName(x) && x != ""
    ensures FirstOf(list, x).Some? <==> x in list || Wh(x) in list
    ensures FirstOf(list, x) == Some(true) ==> Wh(x) in list
    ensures FirstOf(list, x) == Some(false) ==> x in list
    decreases |list|
  {
    if list != [] {
      FirstOfSome(list[1..], x);
      var e := list[0];
      assert Strip(x) == (x, false);
      assert Wh(x)[4..] == x && WHITEOUT <= Wh(x);
      assert Strip(Wh(x)) == (x, true);
      if Strip(e).1 { assert e == WHITEOUT + e[4..]; }
    }
  }

  /** In the leftmost directory that has an entry about the name, the name stands beside its own whiteout
      and is listed before it. */
  predicate BesideWhiteout(layers: seq<Layer>, dirs: Lists, x: string, b: nat)
    requires |dirs| == |layers| && b <= |layers|
    decreases |layers| - b
  {
    b < |layers| &&
    if Has(layers[b], x) || Stops(layers[b], x)
    then Stops(layers[b], x) && dirs[b].Some? && FirstOf(dirs[b].value, x) == Some(false)
    else BesideWhiteout(layers, dirs, x, b + 1)
  }

  lemma {:induction false} FirstAgainstTop(layers: seq<Layer>, dirs: Lists, x: string, b: nat)
    requires ListsOf(layers, dirs) && ValidName(x) && x != "" && b <= |layers|
    ensures FirstIn(dirs, b, x) == Some(false) <==> Top(layers, x, b).Some? || BesideWhiteout(layers, dirs, x, b)
    ensures BesideWhiteout(layers, dirs, x, b) ==> Top(layers, x, b).None?
    decreases |layers| - b
  {
    if b < |layers| {
      FirstAgainstTop(layers, dirs, x, b + 1);
      if dirs[b].Some? {
        FirstOfSome(dirs[b].value, x);
        assert (x in dirs[b].value) == Has(layers[b], x) && (Wh(x) in dirs[b].value) == Stops(layers[b], x);
        var first := FirstOf(dirs[b].value, x);
        if first.Some? {
          var whiteout: bool := first.value;
          assert first == Some(whiteout);
        }
      }
    }
  }

  /** The listing shows exactly the names that a lookup finds, each of them once; the one exception is a
      name beside its own whiteout that is listed first. */
  lemma ReaddirAgreesExactly(layers: seq<Layer>, dirs: Lists, x: string)
    requires ListsOf(layers, dirs) && ValidName(x) && x != ""
    ensures (x in Merged(dirs) <==> View(layers, x) != Nothing) <==> !BesideWhiteout(layers, dirs, x, 0)
    ensures multiset(Merged(dirs))[x] <= 1
  {
    RestMembers(dirs, 0, {}, x);
    FirstAgainstTop(layers, dirs, x, 0);
  }

  // ---------- What is handed out against the listing, and against the lookup ----------

  /** The first entry about the name that is read, when these names have been met. */
  function HeardFirst(dirs: Lists, pause: Pauses, b: nat, seen: set<string>, x: string): Option<bool>
    requires b <= |dirs|
    decreases |dirs| - b
  {
    if b == |dirs| then None
    else if dirs[b].None? then HeardFirst(dirs, pause, b + 1, seen, x)
    else
      var list := dirs[b].value[..EndOf(dirs[b].value, pause, b, 0, seen, false)];
      if FirstOf(list, x).Some? then FirstOf(list, x) else HeardFirst(dirs, pause, b + 1, Met(list, seen), x)
  }

  /** A name is handed out once, or not at all, as the first entry about it that is read says. */
  lemma {:induction false} HeardMembers(dirs: Lists, pause: Pauses, b: nat, seen: set<string>, x: string)
    requires b <= |dirs|
    ensures x in Heard(dirs, pause, b, 0, seen) <==> x !in seen && HeardFirst(dirs, pause, b, seen, x) == Some(false)
    ensures multiset(Heard(dirs, pause, b, 0, seen))[x] <= 1
    decreases |dirs| - b
  {
    if b < |dirs| {
      if dirs[b].None? {
        HeardMembers(dirs, pause, b + 1, seen, x);
      } else {
        var e := EndOf(dirs[b].value, pause, b, 0, seen, false);
        var list := dirs[b].value[..e];
        assert dirs[b].value[0..e] == list;
        ShownMembers(list, seen, x);
        HeardMembers(dirs, pause, b + 1, Met(list, seen), x);
        assert multiset(Shown(list, seen) + Heard(dirs, pause, b + 1, 0, Met(list, seen)))
               == multiset(Shown(list, seen)) + multiset(Heard(dirs, pause, b + 1, 0, Met(list, seen)));
      }
    }
  }

  lemma {:induction false} FirstOfFront(list: seq<string>, e: nat, x: string)
    requires e <= |list|
    ensures FirstOf(list[..e], x).Some? ==> FirstOf(list, x) == FirstOf(list[..e], x)
    ensures FirstOf(list, x).None? ==> FirstOf(list[..e], x).None?
  {
    if e > 0 && Strip(list[0]).0 != x {
      FirstOfFront(list[1..], e - 1, x);
      assert list[..e][1..] == list[1..][..e - 1];
    }
  }

  /** In the first branch with entries about the name all of them lie behind the place where it is given up,
      and what is read further right says the opposite of the first of them. */
  predicate Misheard(dirs: Lists, pause: Pauses, b: nat, seen: set<string>, x: string)
    requires b <= |dirs|
    decreases |dirs| - b
  {
    b < |dirs| &&
    if dirs[b].None? then Misheard(dirs, pause, b + 1, seen, x)
    else
      var list := dirs[b].value;
      var front := list[..EndOf(list, pause, b, 0, seen, false)];
      if FirstOf(list, x).None? then Misheard(dirs, pause, b + 1, Met(front, seen), x)
      else
        && FirstOf(front, x).None?
        && (HeardFirst(dirs, pause, b + 1, Met(front, seen), x) == Some(false)) != (FirstOf(list, x) == Some(false))
  }

  lemma {:induction false} MisheardExactly(dirs: Lists, pause: Pauses, b: nat, seen: set<string>, x: string)
    requires b <= |dirs|
    ensures (HeardFirst(dirs, pause, b, seen, x) == Some(false) <==> FirstIn(dirs, b, x) == Some(false))
       <==> !Misheard(dirs, pause, b, seen, x)
    decreases |dirs| - b
  {
    if b < |dirs| {
      if dirs[b].None? {
        MisheardExactly(dirs, pause, b + 1, seen, x);
      } else {
        var list := dirs[b].value;
        var e := EndOf(list, pause, b, 0, seen, false);
        FirstOfFront(list, e, x);
        if FirstOf(list, x).None? { MisheardExactly(dirs, pause, b + 1, Met(list[..e], seen), x); }
      }
    }
  }

  /** The calls hand out a name exactly when the merged listing has it, but for the names that are misheard. */
  lemma HeardAgreesExactly(dirs: Lists, pause: Pauses, x: string)
    ensures (x in Heard(dirs, pause, 0, 0, {}) <==> x in Merged(dirs)) <==> !Misheard(dirs, pause, 0, {}, x)
    ensures multiset(Heard(dirs, pause, 0, 0, {}))[x] <= 1
  {
    RestMembers(dirs, 0, {}, x);
    HeardMembers(dirs, pause, 0, {}, x);
    MisheardExactly(dirs, pause, 0, {}, x);
  }

  /** So the calls hand out the names of the merged listing, each as often, exactly when none is misheard. */
  lemma HeardSameExactly(dirs: Lists, pause: Pauses)
    ensures multiset(Heard(dirs, pause, 0, 0, {})) == multiset(Merged(dirs)) <==> forall x :: !Misheard(dirs, pause, 0, {}, x)
  {
    var heard, merged := Heard(dirs, pause, 0, 0, {}), Merged(dirs);
    forall x ensures multiset(heard)[x] <= 1 && multiset(merged)[x] <= 1 {
      RestMembers(dirs, 0, {}, x);
      HeardMembers(dirs, pause, 0, {}, x);
    }
    hide *;
    SameNames(heard, merged);
    if multiset(heard) == multiset(merged) {
      forall x ensures !Misheard(dirs, pause, 0, {}, x) {
        HeardAgreesExactly(dirs, pause, x);
        assert x in heard <==> x in merged;
      }
    } else {
      var x :| !(x in heard <==> x in merged);
      HeardAgreesExactly(dirs, pause, x);
    }
  }

  lemma SameNames(a: seq<string>, b: seq<string>)
    requires forall x :: multiset(a)[x] <= 1 && multiset(b)[x] <= 1
    ensures multiset(a) == multiset(b) <==> forall x :: x in a <==> x in b
  {
    if forall x :: x in a <==> x in b {
      forall x ensures multiset(a)[x] == multiset(b)[x] {
        assert x in a <==> x in multiset(a);
        assert x in b <==> x in multiset(b);
      }
      assert multiset(a) == multiset(b);
    } else {
      var x :| !(x in a <==> x in b);
      assert !(x in multiset(a) <==> x in multiset(b));
    }
  }

  /** What the calls hand out against what a lookup finds: they disagree about a name exactly when it is
      misheard or stands beside its own whiteout, and not both, for then the one mistake undoes the other. */
  lemma HeardAgainstLookup(layers: seq<Layer>, dirs: Lists, pause: Pauses, x: string)
    requires ListsOf(layers, dirs) && ValidName(x) && x != ""
    ensures (x in Heard(dirs, pause, 0, 0, {}) <==> View(layers, x) != Nothing)
       <==> (Misheard(dirs, pause, 0, {}, x) <==> BesideWhiteout(layers, dirs, x, 0))
  {
    HeardAgreesExactly(dirs, pause, x);
    ReaddirAgreesExactly(layers, dirs, x);
  }

  const REVEALING: Lists := [Some(["a"]), Some(["a", ".wh.b"]), Some(["b"])]

  /** A name that is revealed: the piece before its whiteout holds nothing but a name shown from the left, and
      so the name is handed out from further right. */
  lemma RevealedByPiece(pause: Pauses)
    requires pause(1, 1)
    ensures "b" in Heard(REVEALING, pause, 0, 0, {}) && "b" !in Merged(REVEALING)
  {
    var left, middle, right := ["a"], ["a", ".wh.b"], ["b"];
    assert Strip("a") == ("a", false) && Strip("b") == ("b", false) && Strip(".wh.b") == ("b", true);
    assert middle[..1] == left && middle[1..] == [".wh.b"] && left[..1] == left && left[1..] == [] && right[..1] == right;
    assert Met(left, {}) == {"a"} && Met(left, {"a"}) == {"a"};
    assert EndOf(left, pause, 0, 0, {}, false) == 1 && EndOf(middle, pause, 1, 0, {"a"}, false) == 1;
    assert EndOf(right, pause, 2, 0, {"a"}, false) == 1;
    assert FirstOf(left, "b") == None && FirstOf(right, "b") == Some(false) && FirstOf(middle, "b") == Some(true);
    hide Met, EndOf, FirstOf, Shown, Rest, Heard;
    assert HeardFirst(REVEALING, pause, 2, {"a"}, "b") == Some(false);
    assert HeardFirst(REVEALING, pause, 1, {"a"}, "b") == Some(false);
    assert FirstIn(REVEALING, 1, "b") == Some(true) && FirstIn(REVEALING, 0, "b") == Some(true);
    HeardMembers(REVEALING, pause, 0, {}, "b");
    RestMembers(REVEALING, 0, {}, "b");
  }

  /** And no lookup finds it. */
  lemma RevealedNotFound(f: Node)
    ensures var layers := [Some(map["a" := f]), Some(map["a" := f, ".wh.b" := f]), Some(map["b" := f])];
            ListsOf(layers, REVEALING) && View(layers, "b") == Nothing
  {
    assert Wh("b") == ".wh.b";
    TopNone([Some(map["a" := f]), Some(map["a" := f, ".wh.b" := f]), Some(map["b" := f])], "b", 0, 1);
  }

  /** A name beside its own whiteout: the listing shows it, and a lookup does not find it. */
  lemma ListedButNotFound(f: Node, wh: Node)
    ensures var layers, dirs := [Some(map["f" := f, ".wh.f" := wh])], [Some(["f", ".wh.f"])];
            ListsOf(layers, dirs) && "f" in Merged(dirs) && View(layers, "f") == Nothing
  {
    var layers, dirs := [Some(map["f" := f, ".wh.f" := wh])], [Some(["f", ".wh.f"])];
    assert Wh("f") == ".wh.f" && ValidName("f");
    assert Strip("f") == ("f", false);
    assert FirstOf(dirs[0].value, "f") == Some(false);
    ReaddirAgreesExactly(layers, dirs, "f");
    assert BesideWhiteout(layers, dirs, "f", 0);
    FirstAgainstTop(layers, dirs, "f", 0);
  }
}
