/** What a union of directories shows. The lower directories of one union directory are listed from left
    to right, None where a branch does not have it; a name is looked for in that order, and a whiteout
    or an opaque directory ends the search. */
module UnionView {
  import opened Options
  import opened Compression

  const WHITEOUT := ".wh."
  const OPAQUE := "__dir_opaque"

  datatype Node = File(data: seq<Byte>) | Dir(entries: map<string, Node>)

  type Layer = Option<map<string, Node>>

  function Wh(name: string): string { WHITEOUT + name }

  /** is_validname: names that the union itself uses cannot be looked up. */
  predicate ValidName(name: string) { !(WHITEOUT <= name) && !(OPAQUE <= name) }

  lemma WhDistinct(a: string, b: string)
    ensures Wh(a) == Wh(b) <==> a == b
    ensures !ValidName(Wh(a))
  {
    assert Wh(a)[4..] == a && Wh(b)[4..] == b;
  }

  function Of(l: Layer): map<string, Node> { if l.None? then map[] else l.value }

  predicate Has(l: Layer, x: string) { x in Of(l) }

  predicate Stops(l: Layer, name: string) { Has(l, Wh(name)) }

  predicate IsOpaque(entries: map<string, Node>) { Wh(OPAQUE) in entries }

  // ---------- The view ----------

  /** The branch, from k on, in which the name is found. */
  function Top(layers: seq<Layer>, name: string, k: nat): (r: Option<nat>)
    requires k <= |layers|
    ensures r.Some? ==> k <= r.value < |layers| && Has(layers[r.value], name) && !Stops(layers[r.value], name)
    decreases |layers| - k
  {
    if k == |layers| || Stops(layers[k], name) then None
    else if Has(layers[k], name) then Some(k)
    else Top(layers, name, k + 1)
  }

  function Absent(n: nat): (r: seq<Layer>)
    ensures |r| == n && forall i :: 0 <= i < n ==> r[i] == None
  {
    seq(n, _ => None)
  }

  /** The lower directories of the union directory `name`, for the branches from k on. */
  function Sub(layers: seq<Layer>, name: string, k: nat): (r: seq<Layer>)
    requires k <= |layers|
    ensures |r| == |layers| - k
    decreases |layers| - k
  {
    if k == |layers| || Stops(layers[k], name) then Absent(|layers| - k)
    else if Has(layers[k], name) && Of(layers[k])[name].Dir? then
      var entries := Of(layers[k])[name].entries;
      [Some(entries)] + if IsOpaque(entries) then Absent(|layers| - k - 1) else Sub(layers, name, k + 1)
    else [None] + Sub(layers, name, k + 1)
  }

  datatype Seen = Nothing | FileSeen(data: seq<Byte>) | DirSeen(layers: seq<Layer>)

  /** What a name stands for: nothing, the leftmost file, or a union directory again. */
  function View(layers: seq<Layer>, name: string): Seen {
    var top := Top(layers, name, 0);
    if !ValidName(name) || top.None? then Nothing
    else match Of(layers[top.value])[name]
      case File(data) => FileSeen(data)
      case Dir(_) => DirSeen(Sub(layers, name, 0))
  }

  /** A path from a union directory downwards. */
  function Resolve(layers: seq<Layer>, path: seq<string>): Seen
    decreases |path|
  {
    if path == [] then DirSeen(layers)
    else
      var seen := View(layers, path[0]);
      if |path| == 1 then seen
      else if seen.DirSeen? then Resolve(seen.layers, path[1..])
      else Nothing
  }

  // ---------- Changes that concern one name ----------

  function Others(l: Layer, name: string): map<string, Node> { Of(l) - {name, Wh(name)} }

  /** Nothing but the name and its whiteout differ, and a directory without entries is as good as none. */
  ghost predicate SameElse(a: seq<Layer>, b: seq<Layer>, name: string) {
    |a| == |b| && forall i :: 0 <= i < |a| ==> Others(a[i], name) == Others(b[i], name)
  }

  lemma OtherEntry(a: Layer, b: Layer, name: string, x: string)
    requires Others(a, name) == Others(b, name) && x != name && x != Wh(name)
    ensures Has(a, x) == Has(b, x) && (Has(a, x) ==> Of(a)[x] == Of(b)[x])
  {
    assert x in Others(a, name) <==> x in Of(a);
    assert x in Others(b, name) <==> x in Of(b);
    if x in Of(a) {
      assert Others(a, name)[x] == Of(a)[x] && Others(b, name)[x] == Of(b)[x];
    }
  }

  lemma {:induction false} TopElse(a: seq<Layer>, b: seq<Layer>, name: string, x: string, k: nat)
    requires SameElse(a, b, name) && ValidName(x) && ValidName(name) && x != name && k <= |a|
    ensures Top(a, x, k) == Top(b, x, k) && Sub(a, x, k) == Sub(b, x, k)
    decreases |a| - k
  {
    if k < |a| {
      WhDistinct(x, name);
      WhDistinct(name, x);
      OtherEntry(a[k], b[k], name, x);
      OtherEntry(a[k], b[k], name, Wh(x));
      TopElse(a, b, name, x, k + 1);
    }
  }

  /** Every other name stands for exactly what it did. */
  lemma OthersUnchanged(a: seq<Layer>, b: seq<Layer>, name: string, x: string)
    requires SameElse(a, b, name) && ValidName(name) && x != name
    ensures View(a, x) == View(b, x)
  {
    if ValidName(x) {
      TopElse(a, b, name, x, 0);
      var top := Top(a, x, 0);
      if top.Some? {
        WhDistinct(name, x);
        OtherEntry(a[top.value], b[top.value], name, x);
      }
    }
  }

  /** ... and so does every path that begins with another name. */
  lemma OtherPathsUnchanged(a: seq<Layer>, b: seq<Layer>, name: string, path: seq<string>)
    requires SameElse(a, b, name) && ValidName(name) && path != [] && path[0] != name
    ensures Resolve(a, path) == Resolve(b, path)
  {
    OthersUnchanged(a, b, name, path[0]);
  }

  /** Where the name is found, and where it is not. */
  lemma {:induction false} TopIs(layers: seq<Layer>, name: string, k: nat, i: nat)
    requires k <= i < |layers| && Has(layers[i], name) && !Stops(layers[i], name)
    requires forall j :: k <= j < i ==> !Has(layers[j], name) && !Stops(layers[j], name)
    ensures Top(layers, name, k) == Some(i)
    decreases i - k
  {
    if k < i { TopIs(layers, name, k + 1, i); }
  }

  lemma {:induction false} TopBefore(layers: seq<Layer>, name: string, k: nat, i: nat)
    requires k <= i < |layers| && Top(layers, name, k) == Some(i)
    ensures forall j :: k <= j < i ==> !Has(layers[j], name) && !Stops(layers[j], name)
    decreases i - k
  {
    if k < i { TopBefore(layers, name, k + 1, i); }
  }

  lemma {:induction false} TopNone(layers: seq<Layer>, name: string, k: nat, w: nat)
    requires k <= w <= |layers| && (w < |layers| ==> Stops(layers[w], name))
    requires forall j :: k <= j < w ==> !Has(layers[j], name)
    ensures Top(layers, name, k) == None
    decreases w - k
  {
    if k < w { TopNone(layers, name, k + 1, w); }
  }

  lemma {:induction false} SameBehind(a: seq<Layer>, b: seq<Layer>, name: string, k: nat)
    requires |a| == |b| && k <= |a| && forall j :: k <= j < |a| ==> a[j] == b[j]
    ensures Top(a, name, k) == Top(b, name, k) && Sub(a, name, k) == Sub(b, name, k)
    decreases |a| - k
  {
    if k < |a| { SameBehind(a, b, name, k + 1); }
  }
}
