/** The shape of the subscription tree: paths, nodes and the order of a node's children. */
module Nodes {
  import opened Strings
  import opened Topics
  import opened Vectors
  import opened Entries

  /** Pointers the tree stores but never follows; 0 is NULL. */
  type Ctxt = nat
  type Msg = nat
  const NULL: nat := 0

  function Kid(p: Path, t: string): Path { p + [t] }

  function Parent(p: Path): Path
    requires p != []
  {
    p[..|p| - 1]
  }

  function Last(p: Path): string
    requires p != []
  {
    p[|p| - 1]
  }

  lemma ParentOfKid(p: Path, t: string)
    ensures Kid(p, t) != [] && Parent(Kid(p, t)) == p && Last(Kid(p, t)) == t && Kid(p, t) != p
  {
  }

  lemma KidOfParent(p: Path)
    requires p != []
    ensures Kid(Parent(p), Last(p)) == p
  {
  }

  lemma PrefixOfKid(p: Path, q: Path, t: string)
    requires p <= q
    ensures p <= Kid(q, t)
  {
  }

  lemma PrefixStep(f: Path, k: nat)
    requires k < |f|
    ensures f[..k + 1] == Kid(f[..k], f[k]) && f[..k + 1] != [] && Parent(f[..k + 1]) == f[..k]
  {
    assert f[..k + 1][..k] == f[..k];
  }

  class Node {
    const topic: string
    ghost const path: Path
    var plus: int
    var well: int
    var retain: Msg
    var clients: seq<Entry<Ctxt>>
    var child: seq<Node>
    var sessions: seq<Entry<Ctxt>>

    constructor (topic: string, ghost path: Path)
      ensures this.topic == topic && this.path == path && Bare()
      ensures child == [] && plus == -1 && well == -1
    {
      this.topic, this.path := topic, path;
      plus, well := -1, -1;
      retain := NULL;
      clients, child, sessions := [], [], [];
    }

    /** Holds nothing but its children. */
    predicate Bare() reads this { clients == [] && sessions == [] && retain == NULL }
  }

  function WildCount(plus: int, well: int): nat {
    (if plus != -1 then 1 else 0) + (if well != -1 then 1 else 0)
  }

  /** Wildcard children fill the first positions, named by `plus` and `well`; the others ascend. */
  predicate Layout(child: seq<Node>, plus: int, well: int) {
    var l := WildCount(plus, well);
    && l <= |child|
    && -1 <= plus < l && -1 <= well < l && (plus == well ==> plus == -1)
    && (forall i :: 0 <= i < |child| ==> (child[i].topic == PLUS <==> i == plus))
    && (forall i :: 0 <= i < |child| ==> (child[i].topic == WELL <==> i == well))
    && (forall i, j :: l <= i < j < |child| ==> StrCmp(child[i].topic, child[j].topic) < 0)
  }

  lemma LayoutDistinct(child: seq<Node>, plus: int, well: int, i: nat, j: nat)
    requires Layout(child, plus, well) && i < j < |child|
    ensures child[i].topic != child[j].topic
  {
    var l := WildCount(plus, well);
    assert i < l ==> i == plus || i == well;
    if l <= i { assert StrCmp(child[i].topic, child[j].topic) < 0; }
  }

  lemma NamesOrdered(child: seq<Node>, plus: int, well: int, t: string)
    requires Layout(child, plus, well)
    ensures OrderedFor(child, WildCount(plus, well), (n: Node) => StrCmp(n.topic, t))
  {
    var l := WildCount(plus, well);
    forall i, j | l <= i < j < |child| && StrCmp(child[i].topic, t) >= 0
      ensures StrCmp(child[j].topic, t) > 0
    {
      StrCmpAntisymmetric(t, child[i].topic);
      StrCmpAntisymmetric(child[i].topic, t);
      StrCmpAntisymmetric(t, child[j].topic);
      if child[i].topic != t { StrCmpTransitive(t, child[i].topic, child[j].topic); }
    }
  }

  lemma PlaceWild(child: seq<Node>, plus: int, well: int, c: Node)
    requires Layout(child, plus, well)
    requires (c.topic == WELL && well == -1) || (c.topic == PLUS && plus == -1)
    ensures c.topic == WELL ==> Layout([c] + child, if plus == 0 then 1 else plus, 0)
    ensures c.topic == PLUS ==> Layout([c] + child, 0, if well == 0 then 1 else well)
  {
    var r := [c] + child;
    assert forall i :: 1 <= i < |r| ==> r[i] == child[i - 1];
  }

  lemma PlaceName(child: seq<Node>, plus: int, well: int, index: nat, c: Node)
    requires Layout(child, plus, well) && !IsWild(c.topic)
    requires WildCount(plus, well) <= index <= |child|
    requires forall i :: WildCount(plus, well) <= i < index ==> StrCmp(child[i].topic, c.topic) < 0
    requires forall i :: index <= i < |child| ==> StrCmp(child[i].topic, c.topic) > 0
    ensures Layout(VecPlace(child, index, c), plus, well)
  {
    var r := VecPlace(child, index, c);
    assert r == child[..index] + [c] + child[index..];
    forall i | index <= i < |child| ensures StrCmp(c.topic, child[i].topic) < 0 {
      StrCmpAntisymmetric(c.topic, child[i].topic);
    }
    assert forall i :: 0 <= i < index ==> r[i] == child[i];
    assert forall i :: index < i < |r| ==> r[i] == child[i - 1];
  }

  /** The wildcard positions after child `index` is erased, as `delete_dbtree_node` adjusts them. */
  function Shifted(pos: int, index: nat): int {
    if index == 0 && pos >= 0 then pos - 1
    else if index == 1 && pos == 1 then -1
    else pos
  }

  lemma EraseLayout(child: seq<Node>, plus: int, well: int, index: nat)
    requires Layout(child, plus, well) && index < |child|
    ensures Layout(VecErase(child, index), Shifted(plus, index), Shifted(well, index))
  {
    var r := VecErase(child, index);
    assert PLUS[0] != WELL[0];
    assert forall i :: 0 <= i < index ==> r[i] == child[i];
    assert forall i :: index <= i < |r| ==> r[i] == child[i + 1];
  }

  /** A wildcard position is a function of the child vector alone. */
  lemma LayoutUnique(child: seq<Node>, plus: int, well: int, plus': int, well': int)
    requires Layout(child, plus, well) && Layout(child, plus', well')
    ensures plus == plus' && well == well'
  {
    if plus >= 0 { assert child[plus].topic == PLUS; }
    if plus' >= 0 { assert child[plus'].topic == PLUS; }
    if well >= 0 { assert child[well].topic == WELL; }
    if well' >= 0 { assert child[well'].topic == WELL; }
  }

  /** The children whose paths are among the given ones, in order. */
  ghost function Kept(child: seq<Node>, keys: set<Path>): seq<Node> {
    if child == [] then []
    else (if child[0].path in keys then [child[0]] else []) + Kept(child[1..], keys)
  }

  lemma KeptCons(c: Node, a: seq<Node>, keys: set<Path>)
    ensures Kept([c] + a, keys) == (if c.path in keys then [c] else []) + Kept(a, keys)
  {
    assert ([c] + a)[1..] == a;
  }

  lemma {:induction false} KeptConcat(a: seq<Node>, b: seq<Node>, keys: set<Path>)
    ensures Kept(a + b, keys) == Kept(a, keys) + Kept(b, keys)
  {
    hide Kept;
    if a == [] {
      assert a + b == b;
      KeptEmpty(keys);
    } else {
      KeptConcat(a[1..], b, keys);
      KeptCons(a[0], a[1..], keys);
      KeptCons(a[0], a[1..] + b, keys);
      assert a == [a[0]] + a[1..] && a + b == [a[0]] + (a[1..] + b);
    }
  }

  lemma KeptEmpty(keys: set<Path>)
    ensures Kept([], keys) == []
  {
  }

  lemma {:induction false} KeptAll(a: seq<Node>, keys: set<Path>)
    requires forall i :: 0 <= i < |a| ==> a[i].path in keys
    ensures Kept(a, keys) == a
  {
    if a != [] { KeptAll(a[1..], keys); }
  }

  lemma {:induction false} KeptKept(a: seq<Node>, keys: set<Path>, more: set<Path>)
    requires forall i :: 0 <= i < |a| && a[i].path in keys ==> a[i].path in more
    ensures Kept(Kept(a, more), keys) == Kept(a, keys)
  {
    if a != [] {
      KeptKept(a[1..], keys, more);
      var h := if a[0].path in more then [a[0]] else [];
      KeptConcat(h, Kept(a[1..], more), keys);
    }
  }

  lemma KeptPlaced(a: seq<Node>, i: nat, c: Node, keys: set<Path>)
    requires i <= |a| && c.path !in keys
    requires forall j :: 0 <= j < |a| ==> a[j].path in keys
    ensures Kept(VecPlace(a, i, c), keys) == a
  {
    hide Kept;
    assert VecPlace(a, i, c) == a[..i] + ([c] + a[i..]);
    KeptConcat(a[..i], [c] + a[i..], keys);
    KeptCons(c, a[i..], keys);
    KeptAll(a[..i], keys);
    KeptAll(a[i..], keys);
  }

  lemma KeptErased(a: seq<Node>, i: nat, keys: set<Path>)
    requires i < |a| && a[i].path !in keys
    requires forall j :: 0 <= j < |a| && j != i ==> a[j].path in keys
    ensures Kept(a, keys) == VecErase(a, i)
  {
    hide Kept;
    assert a == a[..i] + ([a[i]] + a[i + 1..]);
    KeptConcat(a[..i], [a[i]] + a[i + 1..], keys);
    KeptCons(a[i], a[i + 1..], keys);
    KeptAll(a[..i], keys);
    KeptAll(a[i + 1..], keys);
  }

  lemma KeptNonempty(a: seq<Node>, keys: set<Path>)
    ensures Kept(a, keys) != [] ==> a != []
  {
  }
}
