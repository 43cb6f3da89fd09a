/** unionfs_create and unionfs_mkdir: a new object takes the place of a whiteout, or goes to the nearest
    branch on the left that can be written to. */
module UnionCreate {
  import opened Options
  import opened Compression
  import opened UnionView
  import opened UnionLookup
  import opened UnionChanges

  /** No branch left of b has the directory, and nothing in b hides the name. */
  ghost predicate Free(layers: seq<Layer>, name: string, b: nat) {
    b < |layers| && !Stops(layers[b], name) && ValidName(name) && forall j :: 0 <= j < b ==> layers[j].None?
  }

  lemma NewShows(layers: seq<Layer>, name: string, b: nat, node: Node)
    requires Free(layers, name, b)
    ensures var after := layers[b := With(layers[b], name, node)];
            Top(after, name, 0) == Some(b) && Of(after[b])[name] == node
    ensures node.File? ==> View(layers[b := With(layers[b], name, node)], name) == FileSeen(node.data)
  {
    assert |Wh(name)| == |name| + 4;
    TopIs(layers[b := With(layers[b], name, node)], name, 0, b);
  }

  /** A directory just made and marked opaque shows nothing, whatever the branches on the right hold. */
  lemma NewDirEmpty(layers: seq<Layer>, name: string, b: nat)
    requires Free(layers, name, b)
    ensures var after := layers[b := With(layers[b], name, Dir(map[Wh(OPAQUE) := File([])]))];
            && View(after, name) == DirSeen(Sub(after, name, 0))
            && forall x :: View(Sub(after, name, 0), x) == Nothing
  {
    var node := Dir(map[Wh(OPAQUE) := File([])]);
    var after := layers[b := With(layers[b], name, node)];
    assert |Wh(name)| == |name| + 4;
    NewShows(layers, name, b, node);
    NothingBefore(after, name, b);
    SubAt(after, name, b);
    var sub := Sub(after, name, 0);
    forall x ensures View(sub, x) == Nothing {
      if ValidName(x) {
        WhDistinct(OPAQUE, x);
        TopNone(sub, x, 0, |sub|);
      }
    }
  }

  /** The loop of both operations: from branch `start` leftwards, until the object could be made. */
  method Place(u: Union, hidden: seq<Hidden>, name: string, node: Node, start: int, before: Error) returns (err: Error, b: int)
    requires u.Valid() && |hidden| == |u.layers| && -1 <= start < |u.layers|
    requires before == EROFS || (before == Fine && start >= 0 && hidden[start] != Null)
    requires forall j :: 0 <= j < |hidden| && hidden[j] != Null ==> u.layers[j].Some?
    modifies u
    ensures u.Valid() && b == LastWritable(u.writable, start)
    ensures err == if b < 0 then EROFS else if Has(old(u.layers)[b], name) then EEXIST else Fine
    ensures u.layers == if err == Fine then old(u.layers)[b := With(old(u.layers)[b], name, node)]
                        else if b >= 0 then old(u.layers)[b := Some(Of(old(u.layers)[b]))] else old(u.layers)
  {
    err, b := before, start;
    while b >= 0
      invariant -1 <= b <= start
      invariant u.Valid() && u.layers == old(u.layers) && (err == EROFS || (err == Fine && b == start >= 0 && hidden[start] != Null))
      invariant LastWritable(u.writable, b) == LastWritable(u.writable, start)
    {
      if hidden[b] == Null {
        err := u.CreateParents(b);
        if err != Fine {
          b := b - 1;
          continue;
        }
      }
      if u.writable[b] {
        if Has(u.layers[b], name) { return EEXIST, b; }
        u.layers := u.layers[b := With(u.layers[b], name, node)];
        assert u.layers[b].Some?;
        return Fine, b;
      }
      err := EROFS;
      b := b - 1;
    }
  }

  /** Exactly what lies under the name and its whiteout afterwards: the new object in branch b, if b >= 0, in branch s
      this whiteout or none, and in every branch otherwise what was there. */
  ghost predicate NameMade(was: seq<Layer>, now: seq<Layer>, name: string, b: int, node: Node, s: nat, whiteout: Option<Node>) {
    && |was| == |now|
    && (forall j :: 0 <= j < |was| ==> Entry(now[j], name) == if j == b then Some(node) else Entry(was[j], name))
    && (forall j :: 0 <= j < |was| ==> Entry(now[j], ".wh." + name) == if j == s then whiteout else Entry(was[j], ".wh." + name))
  }

  /** A whiteout that has been truncated; what is no regular file stays. */
  function Truncated(whiteout: Option<Node>): Option<Node> {
    if whiteout.Some? && whiteout.value.File? then Some(File([])) else whiteout
  }

  lemma EmptiedMade(was: seq<Layer>, name: string, s: nat)
    requires s < |was|
    ensures NameMade(was, was[s := Emptied(was[s], name)], name, -1, File([]), s, Truncated(Entry(was[s], Wh(name))))
  {
    assert Wh(name) == ".wh." + name && |Wh(name)| == |name| + 4;
  }

  lemma RenamedMade(was: seq<Layer>, emptied: seq<Layer>, name: string, s: nat, whiteout: Option<Node>)
    requires s < |was| && NameMade(was, emptied, name, -1, File([]), s, whiteout)
    ensures NameMade(was, emptied[s := With(Without(emptied[s], Wh(name)), name, File([]))], name, s, File([]), s, None)
  {
    assert Wh(name) == ".wh." + name && |Wh(name)| == |name| + 4;
  }

  lemma PlacedMade(was: seq<Layer>, before: seq<Layer>, name: string, b: nat, node: Node, s: nat, whiteout: Option<Node>)
    requires s < |was| && b < |was| && NameMade(was, before, name, -1, node, s, whiteout)
    ensures NameMade(was, before[b := With(before[b], name, node)], name, b, node, s, whiteout)
  {
    assert |".wh." + name| == |name| + 4;
  }

  /** A whiteout that is not empty and may not be written to; unionfs_create truncates it all the same. */
  ghost predicate Truncates(layers: seq<Layer>, writable: seq<bool>, name: string, s: nat)
    requires s < |layers| == |writable|
  {
    !writable[s] && Stops(layers[s], name) && Of(layers[s])[Wh(name)].File? && Of(layers[s])[Wh(name)].data != []
  }

  /** notify_change with the size 0, before any test of the branch. */
  function Emptied(l: Layer, name: string): Layer {
    if Stops(l, name) && Of(l)[Wh(name)].File? then With(l, Wh(name), File([])) else l
  }

  /** vfs_rename of the whiteout in branch s to the name itself, where the lower dentry is h. */
  method RenameWhiteout(u: Union, name: string, s: nat, h: Hidden) returns (err: Error)
    requires u.Valid() && ValidName(name) && s < |u.layers| && u.writable[s] && Stops(u.layers[s], name)
    requires h == Beside(u.layers[s], name) && forall j :: 0 <= j < s ==> u.layers[j].None?
    modifies u
    ensures u.Valid() && SameElse(old(u.layers), u.layers, name) && ReadOnlyKept(u.writable, old(u.layers), u.layers)
    ensures err == if DirOf(h).Some? then EISDIR else Fine
    ensures View(u.layers, name) == if err == Fine then FileSeen([]) else Nothing
    ensures u.layers == if err == Fine then old(u.layers)[s := With(Without(old(u.layers)[s], Wh(name)), name, File([]))] else old(u.layers)
  {
    if DirOf(h).Some? {
      TopNone(u.layers, name, 0, s);
      return EISDIR;
    }
    Renamed(u.layers, u.writable, name, s);
    u.layers := u.layers[s := With(Without(u.layers[s], Wh(name)), name, File([]))];
    assert u.layers[s].Some?;
    err := Fine;
  }

  /** unionfs_create: a whiteout in the branch of the negative dentry is renamed to the new file. A directory
      beside it is in the way, and then the operation fails. */
  method Create(u: Union, d: Dentry, name: string) returns (err: Error)
    requires u.Valid() && ValidName(name) && d.Missing(u.layers, name) && View(u.layers, name) == Nothing
    modifies u
    ensures u.Valid() && SameElse(old(u.layers), u.layers, name)
    ensures ReadOnlyKept(u.writable, old(u.layers), u.layers) <==> !Truncates(old(u.layers), u.writable, name, d.bstart)
    ensures View(u.layers, name) == if err == Fine then FileSeen([]) else Nothing
    ensures err == if LastWritable(u.writable, d.bstart) < 0 then EROFS
                   else if u.writable[d.bstart] && DirOf(d.hidden[d.bstart]).Some? then EISDIR else Fine
    ensures NameMade(old(u.layers), u.layers, name, if err == Fine then LastWritable(u.writable, d.bstart) else -1, File([]), d.bstart,
                     if err == Fine && u.writable[d.bstart] then None else Truncated(Entry(old(u.layers)[d.bstart], ".wh." + name)))
  {
    var s := d.bstart;
    ghost var before := u.layers;
    assert Wh(name) == ".wh." + name && |Wh(name)| == |name| + 4;
    ghost var whiteout := Truncated(Entry(before[s], Wh(name)));
    EmptiedMade(before, name, s);
    err := Fine;
    var start := s;
    if Has(u.layers[s], Wh(name)) {
      u.layers := u.layers[s := Emptied(u.layers[s], name)];
      assert u.layers[s].Some?;
      EmptiedSame(before, u.writable, name, s);
      if u.writable[s] {
        ghost var emptied := u.layers;
        err := RenameWhiteout(u, name, s, d.hidden[s]);
        SameElseTrans(before, emptied, u.layers, name);
        if err == Fine { RenamedMade(before, emptied, name, s, whiteout); }
        return;
      }
      err, start := EROFS, s - 1;
    }
    ghost var emptied := u.layers;
    var b;
    err, b := Place(u, d.hidden, name, File([]), start, err);
    if b >= 0 {
      NotThere(emptied, name, b, s);
      NewShows(emptied, name, b, File([]));
      PlacedLeft(before, emptied, u.writable, name, b, s);
      PlacedMade(before, emptied, name, b, File([]), s, whiteout);
    }
  }

  lemma EmptiedSame(layers: seq<Layer>, writable: seq<bool>, name: string, s: nat)
    requires s < |layers| == |writable| && Stops(layers[s], name) && ValidName(name) && forall j :: 0 <= j < s ==> layers[j].None?
    ensures var after := layers[s := Emptied(layers[s], name)];
            && SameElse(layers, after, name) && View(after, name) == Nothing && after[s].Some?
            && (ReadOnlyKept(writable, layers, after) <==> !Truncates(layers, writable, name, s))
            && Stops(after[s], name) && Beside(after[s], name) == Beside(layers[s], name)
  {
    var after := layers[s := Emptied(layers[s], name)];
    assert |Wh(name)| == |name| + 4;
    WithSame(layers[s], name, Wh(name), File([]));
    TopNone(after, name, 0, s);
    var data := Of(layers[s])[Wh(name)];
    if data.File? {
      if data.data == [] {
        assert Of(layers[s])[Wh(name) := File([])] == Of(layers[s]);
        assert after[s] == layers[s];
      } else {
        assert Of(after[s])[Wh(name)] != data;
      }
    }
  }

  /** The new file in a branch b, after the whiteout in branch s has been emptied, if that lies further right. */
  lemma PlacedLeft(layers: seq<Layer>, emptied: seq<Layer>, writable: seq<bool>, name: string, b: nat, s: nat)
    requires b <= s < |layers| == |emptied| == |writable| && writable[b] && SameElse(layers, emptied, name)
    requires if b == s then emptied == layers else emptied == layers[s := emptied[s]]
    ensures var after := emptied[b := With(emptied[b], name, File([]))];
            SameElse(layers, after, name) && (ReadOnlyKept(writable, layers, after) <==> ReadOnlyKept(writable, layers, emptied))
  {
    var after := emptied[b := With(emptied[b], name, File([]))];
    Placed(emptied, writable, name, b, File([]));
    SameElseTrans(layers, emptied, after, name);
    assert forall i :: 0 <= i < |layers| && i != b ==> after[i] == emptied[i];
  }

  lemma Renamed(layers: seq<Layer>, writable: seq<bool>, name: string, s: nat)
    requires s < |layers| == |writable| && ValidName(name) && writable[s] && forall j :: 0 <= j < s ==> layers[j].None?
    ensures var after := layers[s := With(Without(layers[s], Wh(name)), name, File([]))];
            && View(after, name) == FileSeen([]) && SameElse(layers, after, name) && ReadOnlyKept(writable, layers, after)
  {
    assert |Wh(name)| == |name| + 4;
    var without := layers[s := Without(layers[s], Wh(name))];
    WithSame(layers[s], name, Wh(name), File([]));
    WithSame(without[s], name, name, File([]));
    ChangedOne(layers, writable, name, s, With(without[s], name, File([])));
    NewShows(without, name, s, File([]));
    assert without[s := With(without[s], name, File([]))] == layers[s := With(without[s], name, File([]))];
  }

  /** A name that is not seen is not in the leftmost branch either, unless beside its own whiteout. */
  lemma NotThere(layers: seq<Layer>, name: string, b: nat, s: nat)
    requires b <= s < |layers| && ValidName(name) && View(layers, name) == Nothing
    requires (forall j :: 0 <= j < s ==> layers[j].None?) && !Stops(layers[b], name)
    ensures !Has(layers[b], name) && Free(layers, name, b)
  {
    if Has(layers[b], name) { TopIs(layers, name, 0, b); }
  }

  lemma Placed(layers: seq<Layer>, writable: seq<bool>, name: string, b: nat, node: Node)
    requires b < |layers| == |writable| && writable[b]
    ensures SameElse(layers, layers[b := With(layers[b], name, node)], name)
    ensures ReadOnlyKept(writable, layers, layers[b := With(layers[b], name, node)])
  {
    WithSame(layers[b], name, name, node);
    ChangedOne(layers, writable, name, b, With(layers[b], name, node));
  }

  /** make_dir_opaque, in branch b. */
  method MakeOpaque(u: Union, name: string, b: nat)
    requires u.Valid() && b < |u.layers| && Has(u.layers[b], name) && Of(u.layers[b])[name].Dir?
    modifies u
    ensures u.Valid()
    ensures var entries := Of(old(u.layers)[b])[name].entries;
            u.layers == old(u.layers)[b := With(old(u.layers)[b], name,
                          if Wh(OPAQUE) in entries then Dir(entries) else Dir(entries[Wh(OPAQUE) := File([])]))]
  {
    var entries := u.layers[b].value[name].entries;
    if Wh(OPAQUE) !in entries { entries := entries[Wh(OPAQUE) := File([])]; }
    u.layers := u.layers[b := With(u.layers[b], name, Dir(entries))];
    assert u.layers[b].Some?;
  }

  /** unionfs_mkdir: the new directory is seen and is empty. It fails where nothing on the left can be
      written to, and where the name stands beside its own whiteout in the branch that is tried: then the
      whiteout is gone already, and what stood beside it is seen from then on. */
  method Mkdir(u: Union, d: Dentry, name: string) returns (err: Error)
    requires u.Valid() && ValidName(name) && d.Missing(u.layers, name) && View(u.layers, name) == Nothing
    modifies u
    ensures u.Valid() && SameElse(old(u.layers), u.layers, name) && ReadOnlyKept(u.writable, old(u.layers), u.layers)
    ensures err == Fine ==> View(u.layers, name).DirSeen? && forall x :: View(View(u.layers, name).layers, x) == Nothing
    ensures err == if LastWritable(u.writable, d.bstart) < 0 then EROFS
                   else if u.writable[d.bstart] && Has(old(u.layers)[d.bstart], name) then EEXIST else Fine
    ensures err == EROFS ==> View(u.layers, name) == Nothing
    ensures err == EEXIST ==> SeenAs(u.layers, name, Of(old(u.layers)[d.bstart])[name])
    ensures NameMade(old(u.layers), u.layers, name, if err == Fine then LastWritable(u.writable, d.bstart) else -1,
                     Dir(map[".wh.__dir_opaque" := File([])]), d.bstart,
                     if u.writable[d.bstart] then None else Entry(old(u.layers)[d.bstart], ".wh." + name))
  {
    var s := d.bstart;
    ghost var before := u.layers;
    FreedMade(before, u.writable, name, s, Dir(map[".wh.__dir_opaque" := File([])]));
    err := Fine;
    var start := s;
    if Has(u.layers[s], Wh(name)) {
      if u.writable[s] {
        u.layers := u.layers[s := Without(u.layers[s], Wh(name))];
        assert u.layers[s].Some?;
      } else {
        err, start := EROFS, s - 1;
      }
    }
    ghost var freed := u.layers;
    Freed(before, u.writable, name, s);
    assert freed == FreedOf(before, u.writable, name, s);
    assert !u.writable[s] ==> LastWritable(u.writable, s) == LastWritable(u.writable, s - 1);
    hide *;
    ghost var b := LastWritable(u.writable, s);
    err := PlaceDir(u, d.hidden, name, start, err);
    if err == EEXIST { Bared(before, u.writable, name, b, s); }
    if err == Fine {
      MadeDir(before, freed, u.writable, name, b, s);
      PlacedMade(before, freed, name, b, Dir(map[".wh.__dir_opaque" := File([])]), s, if u.writable[s] then None else Entry(before[s], ".wh." + name));
    }
  }

  /** The loop that makes the directory, and its mark. */
  method PlaceDir(u: Union, hidden: seq<Hidden>, name: string, start: int, before: Error) returns (err: Error)
    requires u.Valid() && |hidden| == |u.layers| && -1 <= start < |u.layers|
    requires before == EROFS || (before == Fine && start >= 0 && hidden[start] != Null)
    requires forall j :: 0 <= j < |hidden| && hidden[j] != Null ==> u.layers[j].Some?
    modifies u
    ensures u.Valid()
    ensures var b := LastWritable(u.writable, start);
            && err == (if b < 0 then EROFS else if Has(old(u.layers)[b], name) then EEXIST else Fine)
            && u.layers == if err == Fine then old(u.layers)[b := With(old(u.layers)[b], name, Dir(map[".wh.__dir_opaque" := File([])]))]
                           else if b >= 0 then old(u.layers)[b := Some(Of(old(u.layers)[b]))] else old(u.layers)
  {
    ghost var freed := u.layers;
    var b;
    err, b := Place(u, hidden, name, Dir(map[]), start, before);
    if err == Fine {
      MakeOpaque(u, name, b);
      assert Wh(OPAQUE) == ".wh.__dir_opaque";
      WithTwice(freed, b, name, Dir(map[]), Dir(map[Wh(OPAQUE) := File([])]));
    }
  }

  lemma FreedMade(was: seq<Layer>, writable: seq<bool>, name: string, s: nat, node: Node)
    requires s < |was| == |writable|
    ensures NameMade(was, FreedOf(was, writable, name, s), name, -1, node, s, if writable[s] then None else Entry(was[s], ".wh." + name))
  {
    assert Wh(name) == ".wh." + name && |Wh(name)| == |name| + 4;
  }

  predicate SeenAs(layers: seq<Layer>, name: string, node: Node) {
    match node
    case File(data) => View(layers, name) == FileSeen(data)
    case Dir(_) => View(layers, name).DirSeen?
  }

  /** Where the name is found when the whiteout has gone, it stood beside it in branch s, and is seen. */
  lemma Bared(layers: seq<Layer>, writable: seq<bool>, name: string, b: nat, s: nat)
    requires b <= s < |layers| == |writable| && ValidName(name) && layers[s].Some? && forall j :: 0 <= j < s ==> layers[j].None?
    requires writable[b] && Has(FreedOf(layers, writable, name, s)[b], name)
    ensures var freed := FreedOf(layers, writable, name, s);
            && b == s && freed[b := Some(Of(freed[b]))] == freed
            && Has(layers[s], name) && SeenAs(freed, name, Of(layers[s])[name])
  {
    Freed(layers, writable, name, s);
    assert |Wh(name)| == |name| + 4;
    TopIs(FreedOf(layers, writable, name, s), name, 0, s);
  }

  lemma WithTwice(layers: seq<Layer>, b: nat, name: string, first: Node, second: Node)
    requires b < |layers|
    ensures var once := layers[b := With(layers[b], name, first)];
            once[b := With(once[b], name, second)] == layers[b := With(layers[b], name, second)]
  {
    assert Of(layers[b])[name := first][name := second] == Of(layers[b])[name := second];
  }

  /** The whiteout in branch s removed, if that can be. */
  function FreedOf(layers: seq<Layer>, writable: seq<bool>, name: string, s: nat): (r: seq<Layer>)
    requires s < |layers| == |writable|
    ensures |r| == |layers|
  {
    if Stops(layers[s], name) && writable[s] then layers[s := Without(layers[s], Wh(name))] else layers
  }

  lemma Freed(layers: seq<Layer>, writable: seq<bool>, name: string, s: nat)
    requires s < |layers| == |writable|
    ensures var freed := FreedOf(layers, writable, name, s);
            && SameElse(layers, freed, name) && ReadOnlyKept(writable, layers, freed)
            && Has(freed[s], name) == Has(layers[s], name) && (writable[s] ==> !Stops(freed[s], name))
  {
    assert |Wh(name)| == |name| + 4;
    WithSame(layers[s], name, Wh(name), File([]));
    if Stops(layers[s], name) && writable[s] { ChangedOne(layers, writable, name, s, Without(layers[s], Wh(name))); }
  }

  lemma MadeDir(layers: seq<Layer>, freed: seq<Layer>, writable: seq<bool>, name: string, b: nat, s: nat)
    requires b <= s < |layers| == |writable| && ValidName(name) && writable[b] && freed == FreedOf(layers, writable, name, s)
    requires forall j :: 0 <= j < s ==> layers[j].None?
    ensures var after := freed[b := With(freed[b], name, Dir(map[".wh.__dir_opaque" := File([])]))];
            && SameElse(layers, after, name) && ReadOnlyKept(writable, layers, after)
            && View(after, name).DirSeen? && forall x :: View(View(after, name).layers, x) == Nothing
  {
    assert Wh(OPAQUE) == ".wh.__dir_opaque";
    Freed(layers, writable, name, s);
    NewDirEmpty(freed, name, b);
    Placed(freed, writable, name, b, Dir(map[Wh(OPAQUE) := File([])]));
    SameElseTrans(layers, freed, freed[b := With(freed[b], name, Dir(map[Wh(OPAQUE) := File([])]))], name);
  }

  /** A directory that stands beside its own whiteout: it cannot be seen, and nothing can be created in its place. */
  method InTheWay() returns (u: Union, err: Error)
    ensures fresh(u) && err == EISDIR && View(u.layers, "f") == Nothing
  {
    var only: Layer := Some(map[".wh.f" := File([]), "f" := Dir(map[])]);
    var layers := [only];
    assert Wh("f") == ".wh.f" && ValidName("f") && layers[0].Some?;
    TopNone(layers, "f", 0, 0);
    u := new Union(layers, [true]);
    var d := new Dentry();
    err := d.Lookup(layers, "f");
    err := Create(u, d, "f");
  }

  /** A whiteout that is not empty, in a branch that is read-only: creating the file truncates it. */
  method TruncatesReadOnly() returns (u: Union, before: seq<Layer>, err: Error)
    ensures fresh(u) && err == Fine && !ReadOnlyKept(u.writable, before, u.layers)
  {
    var empty: Layer, hides: Layer := None, Some(map[".wh.f" := File([1])]);
    before := [empty, hides];
    assert Wh("f") == ".wh.f" && ValidName("f") && before[1].Some?;
    TopNone(before, "f", 0, 1);
    u := new Union(before, [true, false]);
    var d := new Dentry();
    err := d.Lookup(before, "f");
    assert u.writable[0] && LastWritable(u.writable, 1) >= 0;
    err := Create(u, d, "f");
  }

  /** A mkdir that fails and makes a file visible that could not be seen before. */
  method MkdirReveals() returns (u: Union, before: seq<Layer>, err: Error)
    ensures fresh(u) && err == EEXIST && View(before, "f") == Nothing && View(u.layers, "f") == FileSeen([1])
  {
    var only: Layer := Some(map[".wh.f" := File([]), "f" := File([1])]);
    before := [only];
    assert Wh("f") == ".wh.f" && ValidName("f") && before[0].Some?;
    TopNone(before, "f", 0, 0);
    u := new Union(before, [true]);
    var d := new Dentry();
    err := d.Lookup(before, "f");
    err := Mkdir(u, d, "f");
  }
}
