/** Copy-up: a file is copied to a branch left of all its copies, and the directories above it are made
    there, without anything that can be seen changing. */
module UnionCopyup {
  import opened Options
  import opened Compression
  import opened UnionView
  import opened UnionLookup
  import opened UnionChanges

  const PAGE_SIZE := 4096

  function Min(a: int, b: int): int { if a < b then a else b }

  /** write in the new branch, which can take `space` bytes: a short write where not all of them fit, and where
      none does what the lower file system returns when it is full, an error or 0. */
  function Written(bytes: nat, pos: nat, space: nat, full: int): int
    requires pos <= space
  {
    if bytes > 0 && pos == space then full else Min(bytes, space - pos)
  }

  /** The loop of copyup_named_dentry ends without an error: n bytes fit, or the branch is full at the end of a
      page and its write returns 0. */
  predicate CopyEnds(n: nat, space: nat, full: int) { n <= space || (full == 0 && space % 4096 == 0) }

  /** The loop of copyup_named_dentry; a short write is an error as well. */
  method CopyData(input: seq<Byte>, length: nat, space: nat, full: int) returns (output: seq<Byte>, err: int)
    requires full <= 0
    ensures err == 0 <==> CopyEnds(Min(length, |input|), space, full)
    ensures err == 0 ==> output == input[..Min(Min(length, |input|), space)]
  {
    var len, size, pos := length as int, length, 0;
    output, err := [], 0;
    ghost var pages, room: nat := 0, space / PAGE_SIZE;
    while true
      invariant 0 <= pos <= |input| && pos <= length && output == input[..pos] && pos <= space && err == 0
      invariant pos < |input| ==> len == length - pos && (len == 0 ==> size == 0) && pos == PAGE_SIZE * pages
      invariant size >= 0 && (len > 0 || pos == 0)
      decreases |input| - pos
    {
      if len >= PAGE_SIZE {
        size := PAGE_SIZE;
      } else if 0 < len < PAGE_SIZE {
        size := len;
      }
      len := len - PAGE_SIZE;
      var readBytes := Min(size, |input| - pos);
      if readBytes <= 0 { break; }
      var writeBytes := Written(readBytes, pos, space, full);
      if writeBytes < 0 || writeBytes < readBytes {
        PageRoom(space, room, pages);
        err := writeBytes;
        break;
      }
      output := output + input[pos..pos + readBytes];
      pos := pos + readBytes;
      pages := pages + 1;
      if len <= 0 { break; }
    }
  }

  /** Where the branch is full at the end of a page, every page up to there fits. */
  lemma PageRoom(space: nat, room: nat, pages: nat)
    requires room == space / PAGE_SIZE && PAGE_SIZE * pages <= space
    ensures space % PAGE_SIZE == 0 <==> space == PAGE_SIZE * room
    ensures space == PAGE_SIZE * pages ==> room == pages
    ensures space % PAGE_SIZE == 0 && PAGE_SIZE * pages < space ==> PAGE_SIZE * pages + PAGE_SIZE <= space
  {
  }

  /** A copy without an error that is not the whole file. */
  method LoseEnd(input: seq<Byte>) returns (output: seq<Byte>, err: int)
    requires |input| > PAGE_SIZE
    ensures err == 0 && output == input[..PAGE_SIZE] && output != input
  {
    output, err := CopyData(input, |input|, PAGE_SIZE, 0);
  }

  // ---------- Directories that make no difference ----------

  /** The same entries everywhere; a directory without entries is as good as none. */
  ghost predicate Like(a: seq<Layer>, b: seq<Layer>) {
    |a| == |b| && forall i :: 0 <= i < |a| ==> Of(a[i]) == Of(b[i])
  }

  lemma {:induction false} LikeTop(a: seq<Layer>, b: seq<Layer>, x: string, k: nat)
    requires Like(a, b) && k <= |a|
    ensures Top(a, x, k) == Top(b, x, k) && Sub(a, x, k) == Sub(b, x, k)
    decreases |a| - k
  {
    if k < |a| { LikeTop(a, b, x, k + 1); }
  }

  lemma LikeView(a: seq<Layer>, b: seq<Layer>, x: string)
    requires Like(a, b)
    ensures View(a, x) == View(b, x)
  {
    LikeTop(a, b, x, 0);
  }

  // ---------- A directory put in front, or changed inside ----------

  /** A directory of the name that belongs to what is seen gets other entries, but stays as opaque as it was. */
  lemma {:induction false} DirReplaced(layers: seq<Layer>, name: string, b: nat, entries: map<string, Node>, k: nat)
    requires k <= b < |layers| && Sub(layers, name, k)[b - k].Some?
    requires IsOpaque(entries) == IsOpaque(Sub(layers, name, k)[b - k].value)
    ensures Has(layers[b], name) && Of(layers[b])[name] == Dir(Sub(layers, name, k)[b - k].value)
    ensures var after := layers[b := With(layers[b], name, Dir(entries))];
            && Sub(after, name, k) == Sub(layers, name, k)[b - k := Some(entries)]
            && Top(after, name, k) == Top(layers, name, k)
    decreases b - k
  {
    var after := layers[b := With(layers[b], name, Dir(entries))];
    assert |Wh(name)| == |name| + 4;
    if k < b {
      SubRest(layers, name, k, b, b);
      DirReplaced(layers, name, b, entries, k + 1);
      assert after[k] == layers[k];
    } else {
      ReplacedAt(layers, name, b, entries);
    }
  }

  lemma ReplacedAt(layers: seq<Layer>, name: string, b: nat, entries: map<string, Node>)
    requires b < |layers| && Sub(layers, name, b)[0].Some? && IsOpaque(entries) == IsOpaque(Sub(layers, name, b)[0].value)
    ensures Has(layers[b], name) && Of(layers[b])[name] == Dir(Sub(layers, name, b)[0].value)
    ensures var after := layers[b := With(layers[b], name, Dir(entries))];
            && Sub(after, name, b) == Sub(layers, name, b)[0 := Some(entries)]
            && Top(after, name, b) == Top(layers, name, b)
  {
    var after, was := layers[b := With(layers[b], name, Dir(entries))], Sub(layers, name, b)[0].value;
    assert |Wh(name)| == |name| + 4;
    SameBehind(layers, after, name, b + 1);
    assert Has(layers[b], name) && !Stops(layers[b], name) && Of(layers[b])[name] == Dir(was);
    SubOfDir(layers, name, b, was);
    SubOfDir(after, name, b, entries);
    hide *;
    var rest := if IsOpaque(entries) then Absent(|layers| - b - 1) else Sub(layers, name, b + 1);
    assert [Some(entries)] + rest == ([Some(was)] + rest)[0 := Some(entries)];
  }

  /** A branch that does not have a directory gets it, left of one that has it: it takes part from then on,
      whether or not a branch further left has the directory too. */
  lemma {:induction false} DirJoins(layers: seq<Layer>, name: string, b: nat, t: nat, entries: map<string, Node>, k: nat)
    requires k <= b < t < |layers| && Sub(layers, name, k)[b - k].None? && Sub(layers, name, k)[t - k].Some?
    requires !Has(layers[b], name) && !IsOpaque(entries)
    ensures var after := layers[b := With(layers[b], name, Dir(entries))];
            && Sub(after, name, k) == Sub(layers, name, k)[b - k := Some(entries)]
            && Top(layers, name, k).Some?
            && Top(after, name, k) == Some(Min(Top(layers, name, k).value, b))
    decreases b - k
  {
    var after := layers[b := With(layers[b], name, Dir(entries))];
    if k == b {
      DirStarts(layers, name, b, t, entries);
    } else {
      SubRest(layers, name, k, t, t);
      SubRest(layers, name, k, b, t);
      DirJoins(layers, name, b, t, entries, k + 1);
      assert after[k] == layers[k] && |after| == |layers|;
      hide *;
      OneBefore(layers, after, name, k, b, Some(entries));
    }
  }

  /** A change of what is seen from branch k + 1 on is one of what is seen from k on. */
  lemma OneBefore(a: seq<Layer>, b: seq<Layer>, name: string, k: nat, i: nat, l: Layer)
    requires k < i < |a| == |b| && a[k] == b[k] && !Stops(a[k], name)
    requires Has(a[k], name) && Of(a[k])[name].Dir? ==> !IsOpaque(Of(a[k])[name].entries)
    requires Sub(b, name, k + 1) == Sub(a, name, k + 1)[i - k - 1 := l]
    ensures Sub(b, name, k) == Sub(a, name, k)[i - k := l]
    ensures if Has(a[k], name) then Top(a, name, k) == Top(b, name, k) == Some(k)
            else Top(a, name, k) == Top(a, name, k + 1) && Top(b, name, k) == Top(b, name, k + 1)
  {
    hide IsOpaque;
  }

  /** Where branch t takes part, what lies between is seen from the next branch on as well. */
  lemma SubRest(layers: seq<Layer>, name: string, k: nat, j: nat, t: nat)
    requires k < j <= t < |layers| && Sub(layers, name, k)[t - k].Some?
    ensures !Stops(layers[k], name) && Sub(layers, name, k)[j - k] == Sub(layers, name, k + 1)[j - k - 1]
    ensures Has(layers[k], name) && Of(layers[k])[name].Dir? ==> !IsOpaque(Of(layers[k])[name].entries)
  {
    assert Sub(layers, name, k)[j - k] == Sub(layers, name, k)[1..][j - k - 1];
    assert Sub(layers, name, k)[t - k] == Sub(layers, name, k)[1..][t - k - 1];
  }

  lemma DirStarts(layers: seq<Layer>, name: string, b: nat, t: nat, entries: map<string, Node>)
    requires b < t < |layers| && Sub(layers, name, b)[t - b].Some? && !Has(layers[b], name) && !IsOpaque(entries)
    ensures var after := layers[b := With(layers[b], name, Dir(entries))];
            && Sub(after, name, b) == Sub(layers, name, b)[0 := Some(entries)]
            && Top(layers, name, b).Some? && Top(after, name, b) == Some(b)
  {
    var after := layers[b := With(layers[b], name, Dir(entries))];
    assert |Wh(name)| == |name| + 4;
    SubRest(layers, name, b, t, t);
    SubTop(layers, name, b + 1, t);
    SameBehind(layers, after, name, b + 1);
    SubOfDir(after, name, b, entries);
    SubOfNone(layers, name, b);
    assert Sub(after, name, b) == [Some(entries)] + Sub(layers, name, b + 1);
    hide *;
    assert Sub(after, name, b) == ([None] + Sub(layers, name, b + 1))[0 := Some(entries)];
  }

  lemma SubOfDir(layers: seq<Layer>, name: string, b: nat, entries: map<string, Node>)
    requires b < |layers| && Has(layers[b], name) && !Stops(layers[b], name)
    requires Of(layers[b])[name] == Dir(entries)
    ensures Sub(layers, name, b) == [Some(entries)] + if IsOpaque(entries) then Absent(|layers| - b - 1) else Sub(layers, name, b + 1)
    ensures Top(layers, name, b) == Some(b)
  {
  }

  lemma SubOfNone(layers: seq<Layer>, name: string, b: nat)
    requires b < |layers| && Empty(layers, name, b)
    ensures Sub(layers, name, b) == [None] + Sub(layers, name, b + 1) && Top(layers, name, b) == Top(layers, name, b + 1)
  {
  }

  lemma {:induction false} SubTop(layers: seq<Layer>, name: string, k: nat, t: nat)
    requires k <= t < |layers| && Sub(layers, name, k)[t - k].Some?
    ensures Top(layers, name, k).Some?
    decreases t - k
  {
    if k < t { SubTop(layers, name, k + 1, t); }
  }

  /** A directory of the name in branch b, left of where the name is found, joins what is there. */
  lemma DirInFront(layers: seq<Layer>, name: string, b: nat, t: nat, entries: map<string, Node>)
    requires ValidName(name) && b < t < |layers| && Top(layers, name, 0) == Some(t) && Of(layers[t])[name].Dir?
    requires !IsOpaque(entries)
    ensures var after := layers[b := With(layers[b], name, Dir(entries))];
            View(after, name) == DirSeen(Sub(layers, name, 0)[b := Some(entries)])
    ensures View(layers, name) == DirSeen(Sub(layers, name, 0))
  {
    TopBefore(layers, name, 0, t);
    EmptyBefore(layers, name, t);
    assert Sub(layers, name, 0)[t] == Sub(layers, name, 0)[t..][0];
    DirJoins(layers, name, b, t, entries, 0);
  }

  // ---------- Copying up ----------

  /** copyup_dentry for a regular file: every name stands for what it did, the file for its first `length` bytes. */
  method CopyUpFile(u: Union, name: string, source: nat, target: nat, length: nat, space: nat, full: int) returns (err: Error)
    requires full <= 0 && u.Valid() && ValidName(name) && target < source < |u.layers|
    requires Top(u.layers, name, 0) == Some(source) && Of(u.layers[source])[name].File?
    modifies u
    ensures u.Valid() && SameElse(old(u.layers), u.layers, name) && ReadOnlyKept(u.writable, old(u.layers), u.layers)
    ensures var data := Of(old(u.layers)[source])[name].data;
            && err == (if !u.writable[target] then EROFS else if CopyEnds(Min(length, |data|), space, full) then Fine else ENOSPC)
            && View(u.layers, name) == FileSeen(if err == Fine then data[..Min(Min(length, |data|), space)] else data)
            && (forall j :: 0 <= j < |u.layers| && j != target ==> u.layers[j] == old(u.layers)[j])
            && Of(u.layers[target]) == if err == Fine then Of(old(u.layers)[target])[name := File(data[..Min(Min(length, |data|), space)])]
                                       else Of(old(u.layers)[target])
  {
    ghost var before := u.layers;
    TopBefore(before, name, 0, source);
    err := u.CreateParents(target);
    if err != Fine { return; }
    ghost var made := u.layers;
    assert SameElse(before, made, name) && Like(before, made);
    LikeView(before, made, name);
    LikeTop(before, made, name, 0);
    var data, failed := CopyData(u.layers[source].value[name].data, length, space, full);
    if failed != 0 { return ENOSPC; }
    u.layers := u.layers[target := With(u.layers[target], name, File(data))];
    assert u.layers[target].Some?;
    WithSame(made[target], name, name, File(data));
    ChangedOne(made, u.writable, name, target, u.layers[target]);
    SameElseTrans(before, made, u.layers, name);
    CopyInFront(made, name, target, source, data);
  }

  lemma CopyInFront(layers: seq<Layer>, name: string, b: nat, t: nat, data: seq<Byte>)
    requires ValidName(name) && b < t < |layers| && Top(layers, name, 0) == Some(t)
    ensures View(layers[b := With(layers[b], name, File(data))], name) == FileSeen(data)
  {
    assert |Wh(name)| == |name| + 4;
    TopBefore(layers, name, 0, t);
    TopIs(layers[b := With(layers[b], name, File(data))], name, 0, b);
  }

  // ---------- The parents ----------

  /** The entries of a directory in a branch, none where the branch does not have it. */
  function Below(entries: map<string, Node>, p: string): map<string, Node> {
    if p in entries && entries[p].Dir? then entries[p].entries else map[]
  }

  /** create_parents_named: the directories of the path that a branch does not have yet are made. */
  function Graft(entries: map<string, Node>, path: seq<string>): map<string, Node>
    decreases |path|
  {
    if path == [] then entries else entries[path[0] := Dir(Graft(Below(entries, path[0]), path[1..]))]
  }

  /** The file is written at the end of the path. */
  function Write(entries: map<string, Node>, path: seq<string>, f: string, node: Node): map<string, Node>
    decreases |path|
  {
    if path == [] then entries[f := node] else entries[path[0] := Dir(Write(Below(entries, path[0]), path[1..], f, node))]
  }

  lemma {:induction false} WriteGrafted(entries: map<string, Node>, path: seq<string>, f: string, node: Node)
    ensures Write(Graft(entries, path), path, f, node) == Write(entries, path, f, node)
    decreases |path|
  {
    if path != [] { WriteGrafted(Below(entries, path[0]), path[1..], f, node); }
  }

  /** What a path leads to in one branch. */
  function NodeAt(entries: map<string, Node>, q: seq<string>): Option<Node>
    decreases |q|
  {
    if q == [] then Some(Dir(entries))
    else if q[0] !in entries then None
    else if |q| == 1 then Some(entries[q[0]])
    else NodeAt(Below(entries, q[0]), q[1..])
  }

  /** Every directory of the path is there, and no other path leads elsewhere. */
  ghost predicate ParentsMade(was: Layer, now: Layer, path: seq<string>) {
    forall q :: if q <= path then NodeAt(Of(now), q).Some? && NodeAt(Of(now), q).value.Dir? else NodeAt(Of(now), q) == NodeAt(Of(was), q)
  }

  /** So is the file, with these bytes. */
  ghost predicate FileMade(was: Layer, now: Layer, path: seq<string>, f: string, data: seq<Byte>) {
    forall q :: if q <= path then NodeAt(Of(now), q).Some? && NodeAt(Of(now), q).value.Dir?
                else if path + [f] <= q then NodeAt(Of(now), q) == if q == path + [f] then Some(File(data)) else None
                else NodeAt(Of(now), q) == NodeAt(Of(was), q)
  }

  lemma {:induction false} GraftMakes(entries: map<string, Node>, path: seq<string>, q: seq<string>)
    ensures var now := NodeAt(Graft(entries, path), q);
            if q <= path then now.Some? && now.value.Dir? else now == NodeAt(entries, q)
    decreases |path|
  {
    if path != [] && q != [] && q[0] == path[0] {
      GraftMakes(Below(entries, path[0]), path[1..], q[1..]);
      assert q == [path[0]] + q[1..] && path == [path[0]] + path[1..];
      assert q <= path <==> q[1..] <= path[1..];
    }
  }

  lemma {:induction false} WriteMakes(entries: map<string, Node>, path: seq<string>, f: string, data: seq<Byte>, q: seq<string>)
    ensures var now := NodeAt(Write(entries, path, f, File(data)), q);
            if q <= path then now.Some? && now.value.Dir?
            else if path + [f] <= q then now == if q == path + [f] then Some(File(data)) else None
            else now == NodeAt(entries, q)
    decreases |path|
  {
    if path == [] {
      if q != [] { assert [f] <= q <==> q[0] == f; }
    } else if q != [] {
      if q[0] == path[0] {
        WriteMakes(Below(entries, path[0]), path[1..], f, data, q[1..]);
        assert q == [path[0]] + q[1..] && path == [path[0]] + path[1..];
        assert path + [f] == [path[0]] + (path[1..] + [f]);
        assert q <= path <==> q[1..] <= path[1..];
        assert path + [f] <= q <==> path[1..] + [f] <= q[1..];
      } else {
        assert !(q <= path) && !(path + [f] <= q);
      }
    }
  }

  lemma GraftMadeIt(l: Layer, path: seq<string>)
    ensures ParentsMade(l, Some(Graft(Of(l), path)), path)
  {
    forall q ensures if q <= path then NodeAt(Graft(Of(l), path), q).Some? && NodeAt(Graft(Of(l), path), q).value.Dir?
                     else NodeAt(Graft(Of(l), path), q) == NodeAt(Of(l), q) { GraftMakes(Of(l), path, q); }
  }

  lemma WriteMadeIt(l: Layer, path: seq<string>, f: string, data: seq<Byte>)
    ensures FileMade(l, Some(Write(Of(l), path, f, File(data))), path, f, data)
  {
    forall q ensures var now := NodeAt(Write(Of(l), path, f, File(data)), q);
                     if q <= path then now.Some? && now.value.Dir?
                     else if path + [f] <= q then now == if q == path + [f] then Some(File(data)) else None
                     else now == NodeAt(Of(l), q) { WriteMakes(Of(l), path, f, data, q); }
  }

  lemma GraftOpaque(entries: map<string, Node>, path: seq<string>)
    requires forall k :: 0 <= k < |path| ==> ValidName(path[k])
    ensures IsOpaque(Graft(entries, path)) == IsOpaque(entries)
  {
    if path != [] { WhDistinct(OPAQUE, path[0]); }
  }

  lemma WriteOpaque(entries: map<string, Node>, path: seq<string>, f: string, node: Node)
    requires (forall k :: 0 <= k < |path| ==> ValidName(path[k])) && ValidName(f)
    ensures IsOpaque(Write(entries, path, f, node)) == IsOpaque(entries)
  {
    WhDistinct(OPAQUE, if path == [] then f else path[0]);
  }

  /** Branch b takes part in the directory, or does not have it and lies left of one that does. */
  ghost predicate Joins(layers: seq<Layer>, b: nat, p: string)
    requires b < |layers|
  {
    var sub := Sub(layers, p, 0);
    sub[b].Some? || (!Has(layers[b], p) && exists t :: b < t < |layers| && sub[t].Some?)
  }

  /** Every directory of the path is seen, and branch b can join it. */
  ghost predicate CanGraft(layers: seq<Layer>, b: nat, path: seq<string>)
    decreases |path|
  {
    && b < |layers|
    && (path == [] ||
        (View(layers, path[0]).DirSeen? && Joins(layers, b, path[0]) && CanGraft(Sub(layers, path[0], 0), b, path[1..])))
  }

  lemma {:induction false} CanGraftValid(layers: seq<Layer>, b: nat, path: seq<string>)
    requires CanGraft(layers, b, path)
    ensures forall k :: 0 <= k < |path| ==> ValidName(path[k])
    decreases |path|
  {
    if path != [] {
      CanGraftValid(Sub(layers, path[0], 0), b, path[1..]);
      forall k | 0 <= k < |path| ensures ValidName(path[k]) {
        if k > 0 { assert path[k] == path[1..][k - 1]; }
      }
    }
  }

  /** Branch b has no file where the path has a directory. */
  predicate ClearWay(layers: seq<Layer>, b: nat, path: seq<string>)
    requires b < |layers|
    decreases |path|
  {
    path == [] || ((Has(layers[b], path[0]) ==> Of(layers[b])[path[0]].Dir?) && ClearWay(Sub(layers, path[0], 0), b, path[1..]))
  }

  lemma {:induction false} SubSome(layers: seq<Layer>, p: string, k: nat, b: nat, t: nat)
    requires k <= b < t < |layers| && Sub(layers, p, k)[t - k].Some?
    requires Has(layers[b], p) && Of(layers[b])[p].Dir?
    ensures Sub(layers, p, k)[b - k].Some?
    decreases b - k
  {
    if k < b {
      SubRest(layers, p, k, t, t);
      SubRest(layers, p, k, b, t);
      hide *;
      SubSome(layers, p, k + 1, b, t);
    } else {
      SubRest(layers, p, b, t, t);
      SubOfDir(layers, p, b, Of(layers[b])[p].entries);
      hide *;
    }
  }

  lemma {:induction false} SubHas(layers: seq<Layer>, p: string, k: nat, t: nat)
    requires k <= t < |layers| && Sub(layers, p, k)[t - k].Some?
    ensures layers[t].Some?
    decreases t - k
  {
    if k < t { SubHas(layers, p, k + 1, t); }
  }

  lemma {:induction false} ResolvedHas(layers: seq<Layer>, path: seq<string>, t: nat)
    requires Resolve(layers, path).DirSeen? && t < |Resolve(layers, path).layers| && Resolve(layers, path).layers[t].Some?
    ensures |Resolve(layers, path).layers| == |layers| && layers[t].Some?
    decreases |path|
  {
    if path != [] {
      var sub := Sub(layers, path[0], 0);
      assert |path| == 1 ==> path[1..] == [];
      assert Resolve(layers, path) == Resolve(sub, path[1..]);
      ResolvedHas(sub, path[1..], t);
      SubHas(layers, path[0], 0, t);
    }
  }

  lemma JoinsExactly(layers: seq<Layer>, b: nat, t: nat, p: string)
    requires b < t < |layers| && Sub(layers, p, 0)[t].Some?
    ensures Joins(layers, b, p) <==> (Has(layers[b], p) ==> Of(layers[b])[p].Dir?)
  {
    if Sub(layers, p, 0)[b].Some? {
      DirReplaced(layers, p, b, Sub(layers, p, 0)[b].value, 0);
    } else if Has(layers[b], p) && Of(layers[b])[p].Dir? {
      SubSome(layers, p, 0, b, t);
    }
  }

  /** A branch left of one that has the last directory can join all of them exactly when no file is in the way. */
  lemma {:induction false} LeftCanGraft(layers: seq<Layer>, b: nat, t: nat, path: seq<string>)
    requires b < t < |layers| && Resolve(layers, path).DirSeen?
    requires t < |Resolve(layers, path).layers| && Resolve(layers, path).layers[t].Some?
    ensures CanGraft(layers, b, path) <==> ClearWay(layers, b, path)
    decreases |path|
  {
    if path != [] {
      var sub := Sub(layers, path[0], 0);
      assert |path| == 1 ==> path[1..] == [];
      assert Resolve(layers, path) == Resolve(sub, path[1..]);
      ResolvedHas(sub, path[1..], t);
      LeftCanGraft(sub, b, t, path[1..]);
      JoinsExactly(layers, b, t, path[0]);
    }
  }

  /** One directory of a path: what is seen below it has the new entries in branch b, and any other path
      leads where it did. */
  lemma ThroughDir(layers: seq<Layer>, b: nat, p: string, entries: map<string, Node>, q: seq<string>)
    requires b < |layers| && View(layers, p).DirSeen? && Joins(layers, b, p) && q != []
    requires IsOpaque(entries) == IsOpaque(Of(Sub(layers, p, 0)[b]))
    ensures var after, sub := layers[b := With(layers[b], p, Dir(entries))], Sub(layers, p, 0);
            if q[0] == p
            then Resolve(after, q) == Resolve(sub[b := Some(entries)], q[1..]) && Resolve(layers, q) == Resolve(sub, q[1..])
            else Resolve(after, q) == Resolve(layers, q)
  {
    var after, sub := layers[b := With(layers[b], p, Dir(entries))], Sub(layers, p, 0);
    assert |q| == 1 ==> q[1..] == [];
    if q[0] == p {
      if sub[b].Some? {
        DirReplaced(layers, p, b, entries, 0);
      } else {
        var t :| b < t < |layers| && sub[t].Some?;
        DirJoins(layers, p, b, t, entries, 0);
      }
    } else {
      WithSame(layers[b], p, p, Dir(entries));
      assert SameElse(layers, after, p);
      OtherPathsUnchanged(layers, after, p, q);
    }
  }

  lemma BelowIs(layers: seq<Layer>, b: nat, p: string)
    requires b < |layers| && Joins(layers, b, p)
    ensures Below(Of(layers[b]), p) == Of(Sub(layers, p, 0)[b])
  {
    if Sub(layers, p, 0)[b].Some? { DirReplaced(layers, p, b, Sub(layers, p, 0)[b].value, 0); }
  }

  /** Files are the same and directories are still directories. */
  predicate Alike(a: Seen, b: Seen) { if a.DirSeen? then b.DirSeen? else a == b }

  lemma LikeResolve(a: seq<Layer>, b: seq<Layer>, q: seq<string>)
    requires Like(a, b)
    ensures Alike(Resolve(a, q), Resolve(b, q))
  {
    if q != [] { LikeView(a, b, q[0]); }
  }

  /** Making the parents changes nothing of what any path leads to. */
  lemma {:induction false} GraftKeepsView(layers: seq<Layer>, b: nat, path: seq<string>, q: seq<string>)
    requires CanGraft(layers, b, path)
    ensures Alike(Resolve(layers, q), Resolve(layers[b := Some(Graft(Of(layers[b]), path))], q))
    decreases |path|
  {
    if path == [] {
      LikeResolve(layers, layers[b := Some(Of(layers[b]))], q);
    } else if q != [] {
      var sub := Sub(layers, path[0], 0);
      CanGraftValid(sub, b, path[1..]);
      GraftOpaque(Of(sub[b]), path[1..]);
      BelowIs(layers, b, path[0]);
      ThroughDir(layers, b, path[0], Graft(Of(sub[b]), path[1..]), q);
      if q[0] == path[0] { GraftKeepsView(sub, b, path[1..], q[1..]); }
    }
  }

  /** A file copied to a branch left of all its copies, its parents made on the way: its path leads to the
      copy, and every other path to what it led to before. */
  lemma {:induction false} WriteKeepsView(layers: seq<Layer>, b: nat, t: nat, path: seq<string>, f: string, data: seq<Byte>, q: seq<string>)
    requires CanGraft(layers, b, path) && Resolve(layers, path).DirSeen? && ValidName(f)
    requires Top(Resolve(layers, path).layers, f, 0) == Some(t) && b < t && View(Resolve(layers, path).layers, f).FileSeen?
    ensures var after := layers[b := Some(Write(Of(layers[b]), path, f, File(data)))];
            if q == path + [f] then Resolve(after, q) == FileSeen(data) else Alike(Resolve(layers, q), Resolve(after, q))
    decreases |path|
  {
    var after := layers[b := Some(Write(Of(layers[b]), path, f, File(data)))];
    if path == [] {
      FileWritten(layers, b, t, f, data, q);
    } else if q != [] {
      var sub, below := Sub(layers, path[0], 0), path[1..];
      CanGraftValid(sub, b, below);
      WriteOpaque(Of(sub[b]), below, f, File(data));
      BelowIs(layers, b, path[0]);
      ThroughDir(layers, b, path[0], Write(Of(sub[b]), below, f, File(data)), q);
      assert Resolve(layers, path) == Resolve(sub, below);
      if q[0] == path[0] {
        WriteKeepsView(sub, b, t, below, f, data, q[1..]);
        assert q == [path[0]] + q[1..] && path == [path[0]] + below;
        assert q == path + [f] <==> q[1..] == below + [f];
      } else {
        assert q != path + [f] by { assert (path + [f])[0] == path[0]; }
      }
    }
  }

  lemma FileWritten(layers: seq<Layer>, b: nat, t: nat, f: string, data: seq<Byte>, q: seq<string>)
    requires b < t < |layers| && ValidName(f) && Top(layers, f, 0) == Some(t) && View(layers, f).FileSeen?
    ensures var after := layers[b := With(layers[b], f, File(data))];
            if q == [f] then Resolve(after, q) == FileSeen(data) else Alike(Resolve(layers, q), Resolve(after, q))
  {
    var after := layers[b := With(layers[b], f, File(data))];
    CopyInFront(layers, f, b, t, data);
    if q != [] && q[0] != f {
      WithSame(layers[b], f, f, File(data));
      assert SameElse(layers, after, f);
      OtherPathsUnchanged(layers, after, f, q);
    }
  }

  lemma {:induction false} ResolveLast(layers: seq<Layer>, path: seq<string>, f: string)
    requires Resolve(layers, path).DirSeen?
    ensures Resolve(layers, path + [f]) == View(Resolve(layers, path).layers, f)
    decreases |path|
  {
    if path == [] {
      assert path + [f] == [f];
    } else {
      var sub := Sub(layers, path[0], 0);
      assert |path| == 1 ==> path[1..] == [];
      assert (path + [f])[1..] == path[1..] + [f];
      ResolveLast(sub, path[1..], f);
    }
  }

  /** The parents made: the last directory has branch b then, as it was if it had it, and whether a file is in
      the way in another branch has not changed. */
  lemma {:induction false} AfterGraft(layers: seq<Layer>, b: nat, path: seq<string>, c: nat)
    requires CanGraft(layers, b, path) && Resolve(layers, path).DirSeen? && c < |layers|
    ensures var after, at := layers[b := Some(Graft(Of(layers[b]), path))], Resolve(layers, path).layers;
            && |at| == |layers| && Resolve(after, path) == DirSeen(at[b := Some(Of(at[b]))])
            && (c != b ==> ClearWay(after, c, path) == ClearWay(layers, c, path))
    decreases |path|
  {
    if path != [] {
      var sub, below, p := Sub(layers, path[0], 0), path[1..], path[0];
      CanGraftValid(sub, b, below);
      GraftOpaque(Of(sub[b]), below);
      BelowIs(layers, b, p);
      ThroughDir(layers, b, p, Graft(Of(sub[b]), below), path);
      ThroughDir(layers, b, p, Graft(Of(sub[b]), below), [p]);
      AfterGraft(sub, b, below, c);
    }
  }

  /** The path leads to a file that is found in branch `source`. */
  ghost predicate FileAt(layers: seq<Layer>, path: seq<string>, f: string, source: nat) {
    && ValidName(f) && source < |layers| && Resolve(layers, path).DirSeen?
    && Top(Resolve(layers, path).layers, f, 0) == Some(source) && View(Resolve(layers, path).layers, f).FileSeen?
  }

  function DataAt(layers: seq<Layer>, path: seq<string>, f: string): seq<Byte> {
    var seen := Resolve(layers, path + [f]);
    if seen.FileSeen? then seen.data else []
  }

  /** No path but the one to the file leads elsewhere, and that one leads to these bytes. */
  ghost predicate KeptBut(a: seq<Layer>, b: seq<Layer>, file: seq<string>, data: seq<Byte>) {
    && (forall q :: q != file ==> Alike(Resolve(a, q), Resolve(b, q)))
    && Resolve(b, file) == FileSeen(data)
  }

  lemma AlikeThrough(a: seq<Layer>, b: seq<Layer>, c: seq<Layer>, file: seq<string>, first: seq<Byte>, data: seq<Byte>)
    requires KeptBut(a, b, file, first) && KeptBut(b, c, file, data)
    ensures KeptBut(a, c, file, data)
  {
    forall q | q != file ensures Alike(Resolve(a, q), Resolve(c, q)) {
      assert Alike(Resolve(a, q), Resolve(b, q)) && Alike(Resolve(b, q), Resolve(c, q));
    }
  }

  /** The parents have been made in branch b. */
  lemma Grafted(layers: seq<Layer>, path: seq<string>, f: string, source: nat, b: nat)
    requires FileAt(layers, path, f, source) && b < source && ClearWay(layers, b, path)
    ensures var after := layers[b := Some(Graft(Of(layers[b]), path))];
            && CanGraft(layers, b, path) && FileAt(after, path, f, source) && KeptBut(layers, after, path + [f], DataAt(layers, path, f))
            && forall c: nat :: c < b ==> ClearWay(after, c, path) == ClearWay(layers, c, path)
  {
    var after, at := layers[b := Some(Graft(Of(layers[b]), path))], Resolve(layers, path).layers;
    ResolvedHas(layers, path, source);
    LeftCanGraft(layers, b, source, path);
    forall c: nat | c < b ensures ClearWay(after, c, path) == ClearWay(layers, c, path) { AfterGraft(layers, b, path, c); }
    forall q ensures Alike(Resolve(layers, q), Resolve(after, q)) { GraftKeepsView(layers, b, path, q); }
    ResolveLast(layers, path, f);
    GraftedFile(layers, path, f, source, b);
  }

  lemma GraftedFile(layers: seq<Layer>, path: seq<string>, f: string, source: nat, b: nat)
    requires FileAt(layers, path, f, source) && b < source && CanGraft(layers, b, path)
    ensures FileAt(layers[b := Some(Graft(Of(layers[b]), path))], path, f, source)
  {
    AfterGraft(layers, b, path, 0);
    var at := Resolve(layers, path).layers;
    LikeTop(at, at[b := Some(Of(at[b]))], f, 0);
  }

  /** copyup_dentry for a regular file at any depth, its union given by the roots of the branches. Whether it
      succeeds or fails half way, no path leads anywhere else. The file keeps the bytes asked for, but for what
      is lost without an error where the branch is full at the end of a page and its write returns 0. */
  method CopyUp(u: Union, path: seq<string>, f: string, source: nat, target: nat, length: nat, space: nat, full: int)
    returns (err: Error)
    requires full <= 0 && u.Valid() && FileAt(u.layers, path, f, source) && target < source && ClearWay(u.layers, target, path)
    modifies u
    ensures u.Valid() && ReadOnlyKept(u.writable, old(u.layers), u.layers)
    ensures var data := DataAt(old(u.layers), path, f);
            && err == (if !u.writable[target] then EROFS else if CopyEnds(Min(length, |data|), space, full) then Fine else ENOSPC)
            && KeptBut(old(u.layers), u.layers, path + [f], if err == Fine then data[..Min(Min(length, |data|), space)] else data)
    ensures err != Fine ==> FileAt(u.layers, path, f, source)
                            && forall c: nat :: c < target ==> ClearWay(u.layers, c, path) == ClearWay(old(u.layers), c, path)
    ensures forall j :: 0 <= j < |u.layers| && j != target ==> u.layers[j] == old(u.layers)[j]
    ensures var data := DataAt(old(u.layers), path, f); var was, now := old(u.layers)[target], u.layers[target];
            if err == Fine then FileMade(was, now, path, f, data[..Min(Min(length, |data|), space)])
            else if err == ENOSPC then ParentsMade(was, now, path) else now == was
  {
    hide ParentsMade, FileMade, Graft, Write;
    ghost var before := u.layers;
    var at := Resolve(u.layers, path).layers;
    ResolveLast(before, path, f);
    if !u.writable[target] {
      assert forall q :: Alike(Resolve(before, q), Resolve(before, q));
      return EROFS;
    }
    Grafted(before, path, f, source, target);
    u.layers := u.layers[target := Some(Graft(Of(u.layers[target]), path))];
    assert u.layers[target].Some?;
    GraftMadeIt(before[target], path);
    var data, failed := CopyData(at[source].value[f].data, length, space, full);
    if failed != 0 { return ENOSPC; }
    u.layers := u.layers[target := Some(Write(Of(u.layers[target]), path, f, File(data)))];
    assert u.layers[target].Some?;
    WriteGrafted(Of(before[target]), path, f, File(data));
    WriteMadeIt(before[target], path, f, data);
    assert u.layers == before[target := Some(Write(Of(before[target]), path, f, File(data)))];
    Copied(before, target, source, path, f, data);
    err := Fine;
  }

  lemma Copied(layers: seq<Layer>, b: nat, t: nat, path: seq<string>, f: string, data: seq<Byte>)
    requires CanGraft(layers, b, path) && FileAt(layers, path, f, t) && b < t
    ensures KeptBut(layers, layers[b := Some(Write(Of(layers[b]), path, f, File(data)))], path + [f], data)
  {
    var after := layers[b := Some(Write(Of(layers[b]), path, f, File(data)))];
    hide Write;
    forall q ensures if q == path + [f] then Resolve(after, q) == FileSeen(data) else Alike(Resolve(layers, q), Resolve(after, q)) {
      WriteKeepsView(layers, b, t, path, f, data, q);
    }
  }

  lemma KeptAll(layers: seq<Layer>, file: seq<string>, data: seq<Byte>)
    requires Resolve(layers, file) == FileSeen(data)
    ensures KeptBut(layers, layers, file, data)
  {
  }

  lemma KeptData(a: seq<Layer>, b: seq<Layer>, path: seq<string>, f: string, data: seq<Byte>)
    requires KeptBut(a, b, path + [f], data)
    ensures DataAt(b, path, f) == data
  {
  }

  /** The branch, left of i, in which the copy succeeds: -1 if there is none. */
  function CopyBranch(writable: seq<bool>, space: seq<nat>, full: int, bytes: nat, i: nat): (r: int)
    requires i <= |writable| == |space|
    ensures -1 <= r < i && (r >= 0 ==> writable[r] && CopyEnds(bytes, space[r], full))
    ensures forall j :: r < j < i ==> !writable[j] || !CopyEnds(bytes, space[j], full)
  {
    if i == 0 then -1
    else if writable[i - 1] && CopyEnds(bytes, space[i - 1], full) then i - 1
    else CopyBranch(writable, space, full, bytes, i - 1)
  }

  /** Of the branches between b and the file, those that can be written to have got the parents; branch b aside, no
      other has changed. */
  ghost predicate Tried(was: seq<Layer>, now: seq<Layer>, writable: seq<bool>, path: seq<string>, b: int, source: nat) {
    && |was| == |now| == |writable|
    && forall j :: 0 <= j < |was| && j != b ==>
         if b < j < source && writable[j] then ParentsMade(was[j], now[j], path) else now[j] == was[j]
  }

  lemma TriedStep(was: seq<Layer>, mid: seq<Layer>, now: seq<Layer>, writable: seq<bool>, path: seq<string>, b: nat, source: nat)
    requires Tried(was, mid, writable, path, b, source) && b < source <= |was| && |now| == |was| && mid[b] == was[b]
    requires forall j :: 0 <= j < |was| && j != b ==> now[j] == mid[j]
    ensures Tried(was, now, writable, path, b, source)
    ensures (if writable[b] then ParentsMade(was[b], now[b], path) else now[b] == was[b]) ==> Tried(was, now, writable, path, b - 1, source)
    ensures b > 0 ==> now[b - 1] == was[b - 1]
  {
    hide ParentsMade;
  }

  /** The loop with which a file is copied up before it is written: from the branch left of it on, until a copy
      succeeds. What failed attempts leave behind is not seen either. */
  method CopyUpLeft(u: Union, path: seq<string>, f: string, source: nat, length: nat, space: seq<nat>, full: int) returns (b: int)
    requires full <= 0 && u.Valid() && FileAt(u.layers, path, f, source) && |space| == |u.layers|
    requires forall c: nat :: c < source ==> ClearWay(u.layers, c, path)
    modifies u
    ensures u.Valid() && ReadOnlyKept(u.writable, old(u.layers), u.layers)
    ensures var data := DataAt(old(u.layers), path, f);
            && b == CopyBranch(u.writable, space, full, Min(length, |data|), source)
            && KeptBut(old(u.layers), u.layers, path + [f], if b >= 0 then data[..Min(Min(length, |data|), space[b])] else data)
            && Tried(old(u.layers), u.layers, u.writable, path, b, source)
            && (b >= 0 ==> FileMade(old(u.layers)[b], u.layers[b], path, f, data[..Min(Min(length, |data|), space[b])]))
  {
    hide ParentsMade, FileMade, KeptBut;
    ghost var before, data := u.layers, DataAt(u.layers, path, f);
    b := source - 1;
    ResolveLast(before, path, f);
    KeptAll(before, path + [f], data);
    assert Tried(before, before, u.writable, path, b, source);
    while b >= 0
      invariant -1 <= b < source && u.Valid() && FileAt(u.layers, path, f, source) && |u.layers| == |before|
      invariant ReadOnlyKept(u.writable, before, u.layers) && KeptBut(before, u.layers, path + [f], data)
      invariant forall c: nat :: c <= b ==> ClearWay(u.layers, c, path)
      invariant Tried(before, u.layers, u.writable, path, b, source) && (b >= 0 ==> u.layers[b] == before[b])
      invariant CopyBranch(u.writable, space, full, Min(length, |data|), b + 1)
             == CopyBranch(u.writable, space, full, Min(length, |data|), source)
    {
      ghost var was := u.layers;
      KeptData(before, was, path, f, data);
      var err := CopyUp(u, path, f, source, b, length, space[b], full);
      TriedStep(before, was, u.layers, u.writable, path, b, source);
      hide FileAt, ClearWay, Resolve, Alike, Tried;
      AlikeThrough(before, was, u.layers, path + [f], data, if err == Fine then data[..Min(Min(length, |data|), space[b])] else data);
      if err == Fine { return; }
      b := b - 1;
    }
  }
}
