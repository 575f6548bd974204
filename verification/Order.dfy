/** The order in which a publish meets the filters that match, and the records it gathers in that order. */
module Order {
  import opened Strings
  import opened Topics
  import opened Entries
  import opened Nodes
  import opened Dedup

  /** At one node `#` is looked at first, then `+`, then the name. */
  predicate Sooner(u: string, v: string) { (u == WELL && v != WELL) || (u == PLUS && !IsWild(v)) }

  /** Of two paths of one length: children of one node by their names, others against the order of their parents. */
  predicate Ahead(p: Path, q: Path)
    requires |p| == |q|
    decreases |p|
  {
    p != [] && if Parent(p) == Parent(q) then Sooner(Last(p), Last(q)) else Ahead(Parent(q), Parent(p))
  }

  /** Shorter filters come first. */
  predicate Earlier(p: Path, q: Path) { |p| < |q| || (|p| == |q| && Ahead(p, q)) }

  /** The first level in which they differ decides, and every level below it turns the order round. */
  lemma {:induction false} AheadIff(p: Path, q: Path, j: nat)
    requires |p| == |q| && j < |p| && p[..j] == q[..j] && p[j] != q[j]
    ensures var first := p[j] == "#" || (p[j] == "+" && q[j] != "#");
            var second := q[j] == "#" || (q[j] == "+" && p[j] != "#");
            Ahead(p, q) <==> if (|p| - j) % 2 == 1 then first else second
    decreases |p|
  {
    if j == |p| - 1 {
      assert Parent(p) == p[..j] == Parent(q);
    } else {
      assert Parent(p)[j] != Parent(q)[j] && Parent(p)[..j] == p[..j] && Parent(q)[..j] == q[..j];
      AheadIff(Parent(q), Parent(p), j);
    }
  }

  lemma {:induction false} OneAhead(p: Path, q: Path)
    requires |p| == |q|
    ensures !(Ahead(p, q) && Ahead(q, p))
    decreases |p|
  {
    if p != [] { OneAhead(Parent(p), Parent(q)); }
  }

  /** Filters that match one topic are in this order one way round. */
  lemma {:induction false} SomeAhead(p: Path, q: Path, t: Path)
    requires |p| == |q| && p != q && Matches(p, t) && Matches(q, t) && WildcardFree(t)
    ensures Ahead(p, q) <==> !Ahead(q, p)
  {
    var j := FirstDifference(p, q);
    AheadIff(p, q, j);
    AheadIff(q, p, j);
    assert !IsWild(t[j]);
    assert LevelMatches(p[j], t[j]) || p[j] == WELL by { LevelOf(p, t, j); }
    assert LevelMatches(q[j], t[j]) || q[j] == WELL by { LevelOf(q, t, j); }
  }

  lemma LevelOf(p: Path, t: Path, j: nat)
    requires Matches(p, t) && j < |p|
    ensures LevelMatches(p[j], t[j]) || p[j] == WELL
  {
    assert j < |p| - 1 ==> p[..|p| - 1][j] == p[j];
  }

  lemma {:induction false} FirstDifference(p: Path, q: Path) returns (j: nat)
    requires |p| == |q| && p != q
    ensures j < |p| && p[..j] == q[..j] && p[j] != q[j]
  {
    j := 0;
    while j < |p| && p[j] == q[j]
      invariant j <= |p| && p[..j] == q[..j]
    {
      assert p[..j + 1] == p[..j] + [p[j]] && q[..j + 1] == q[..j] + [q[j]];
      j := j + 1;
    }
    assert p[..|p|] == p && q[..|p|] == q;
  }

  /** A filter and a pipe that is subscribed to it. */
  type Key = (Path, Id)

  /** Filters in the order of the walk, the pipes of one filter by descending id. */
  predicate Precedes(a: Key, b: Key) { Earlier(a.0, b.0) || (a.0 == b.0 && a.1 > b.1) }

  predicate Lined(trail: seq<Key>) { forall i, j :: 0 <= i < j < |trail| ==> Precedes(trail[i], trail[j]) }

  /** The subscriptions that match the topic, in that order. */
  ghost predicate Trail(live: map<Key, Ctxt>, t: Path, trail: seq<Key>) {
    Lined(trail) && forall k :: k in trail <==> k in live && Matches(k.0, t)
  }

  function Listing(live: map<Key, Ctxt>, trail: seq<Key>): (s: seq<Client>)
    requires forall k :: k in trail ==> k in live
  {
    seq(|trail|, i requires 0 <= i < |trail| => Entry(trail[i].1, live[trail[i]]))
  }

  /** `s` lists the records of the matching subscriptions in the order in which a publish meets them. */
  ghost predicate Gathered(live: map<Key, Ctxt>, t: Path, s: seq<Client>) {
    exists trail :: Trail(live, t, trail) && s == Listing(live, trail)
  }

  lemma OnePrecedes(a: Key, b: Key)
    ensures !(Precedes(a, b) && Precedes(b, a))
  {
    if |a.0| == |b.0| { OneAhead(a.0, b.0); }
  }

  lemma TailOf(a: seq<Key>)
    requires a != [] && Lined(a)
    ensures Lined(a[1..]) && forall k :: k in a[1..] <==> k in a && k != a[0]
  {
    forall k ensures k in a[1..] <==> k in a && k != a[0] {
      if k in a && k != a[0] {
        var i :| 0 <= i < |a| && a[i] == k;
        assert a[1..][i - 1] == k;
      }
      if k in a[1..] {
        var i :| 0 <= i < |a| - 1 && a[1..][i] == k;
        assert Precedes(a[0], a[i + 1]);
        OnePrecedes(a[0], a[0]);
      }
    }
  }

  lemma HeadKey(a: seq<Key>)
    ensures a != [] ==> a[0] in a
  {
  }

  /** The order leaves one way to list given keys. */
  lemma {:induction false} LinedUnique(a: seq<Key>, b: seq<Key>)
    requires Lined(a) && Lined(b) && forall k :: k in a <==> k in b
    ensures a == b
  {
    if a == [] {
      HeadKey(b);
    } else {
      assert a[0] in b && b[0] in a;
      var i :| 0 <= i < |b| && b[i] == a[0];
      var j :| 0 <= j < |a| && a[j] == b[0];
      OnePrecedes(a[0], b[0]);
      assert i == 0;
      TailOf(a);
      TailOf(b);
      LinedUnique(a[1..], b[1..]);
      assert a == [a[0]] + a[1..] && b == [b[0]] + b[1..];
    }
  }

  /** What a publish gathers follows from the subscriptions alone. */
  lemma GatheredUnique(live: map<Key, Ctxt>, t: Path, r: seq<Client>, s: seq<Client>)
    requires Gathered(live, t, r) && Gathered(live, t, s)
    ensures r == s
  {
    hide Lined;
    var a :| Trail(live, t, a) && r == Listing(live, a);
    var b :| Trail(live, t, b) && s == Listing(live, b);
    LinedUnique(a, b);
  }

  /** What a publish gathers is known once the subscriptions that match are listed in order. */
  lemma GatheredAre(live: map<Key, Ctxt>, t: Path, trail: seq<Key>, found: seq<Client>)
    requires Trail(live, t, trail) && Gathered(live, t, found)
    ensures found == Listing(live, trail)
  {
    hide Lined, Matches;
    GatheredUnique(live, t, found, Listing(live, trail));
  }

  /** The subscription that a publish meets first. */
  ghost predicate First(live: map<Key, Ctxt>, t: Path, k: Key) {
    k in live && Matches(k.0, t) && forall x :: x in live && Matches(x.0, t) && x != k ==> Precedes(k, x)
  }

  /** A pipe with a lower id than that of the first subscription is subscribed to two filters that match. */
  ghost predicate LowPair(live: map<Key, Ctxt>, t: Path) {
    exists k: Key, f, g, id: Id ::
      && First(live, t, k) && id < k.1 && f != g
      && (f, id) in live && Matches(f, t) && (g, id) in live && Matches(g, t)
  }

  /** When a publish, as written, serves a pipe twice, in terms of the subscriptions. */
  lemma LowRepeatIff(live: map<Key, Ctxt>, t: Path, s: seq<Client>)
    requires Gathered(live, t, s)
    ensures LowRepeat(s) <==> LowPair(live, t)
  {
    hide Lined, Matches, LowRepeat, LowPair;
    var trail: seq<Key> :| Trail(live, t, trail) && s == Listing(live, trail);
    RepeatIsPair(live, t, trail);
    PairIsRepeat(live, t, trail);
  }

  lemma RepeatIsPair(live: map<Key, Ctxt>, t: Path, trail: seq<Key>)
    requires Trail(live, t, trail)
    ensures LowRepeat(Listing(live, trail)) ==> LowPair(live, t)
  {
    hide Matches, Precedes, First;
    var s := Listing(live, trail);
    if i, j :| 0 <= i < j < |s| && s[i].id == s[j].id < s[0].id {
      FirstIs(live, t, trail, trail[0]);
      var f, g, id := trail[i].0, trail[j].0, s[i].id;
      assert trail[i] in trail && trail[j] in trail && trail[i] == (f, id) && trail[j] == (g, id);
      OnePrecedes(trail[i], trail[j]);
    }
  }

  lemma PairIsRepeat(live: map<Key, Ctxt>, t: Path, trail: seq<Key>)
    requires Trail(live, t, trail)
    ensures LowPair(live, t) ==> LowRepeat(Listing(live, trail))
  {
    hide Matches, Precedes, First;
    if k: Key, f: Path, g: Path, id: Id :|
      && First(live, t, k) && id < k.1 && f != g
      && (f, id) in live && Matches(f, t) && (g, id) in live && Matches(g, t)
    {
      assert (f, id) in trail && (g, id) in trail;
      FirstIs(live, t, trail, k);
      var i :| 0 <= i < |trail| && trail[i] == (f, id);
      var j :| 0 <= j < |trail| && trail[j] == (g, id);
      var s := Listing(live, trail);
      assert s[i].id == s[j].id == id < s[0].id && i != j;
    }
  }

  lemma FirstIs(live: map<Key, Ctxt>, t: Path, trail: seq<Key>, k: Key)
    requires Trail(live, t, trail) && trail != []
    ensures First(live, t, k) <==> k == trail[0]
  {
    hide Matches, Precedes;
    assert trail[0] in trail;
    forall x | x in trail && x != trail[0] ensures Precedes(trail[0], x) {
      var i :| 0 <= i < |trail| && trail[i] == x;
    }
    OnePrecedes(k, trail[0]);
  }

  // ----- Retained lookups -----

  /** Children stand with wildcards first, and then by name. */
  predicate Stands(u: string, v: string) { !IsWild(v) && (IsWild(u) || StrCmp(u, v) < 0) }

  /** Nodes of one depth in a buffer that is emptied from its end: those of later parents come first. */
  predicate Left(p: Path, q: Path)
    requires |p| == |q|
    decreases |p|
  {
    p != [] && if Parent(p) == Parent(q) then Stands(Last(p), Last(q)) else Left(Parent(q), Parent(p))
  }

  /** Nodes of one depth in a sweep: those of earlier parents come first. */
  predicate Fore(p: Path, q: Path)
    requires |p| == |q|
    decreases |p|
  {
    p != [] && if Parent(p) == Parent(q) then Stands(Last(p), Last(q)) else Fore(Parent(p), Parent(q))
  }

  /** Without wildcards the first level in which they differ decides, by the order of a dictionary. */
  lemma {:induction false} LeftIff(p: Path, q: Path, j: nat)
    requires |p| == |q| && j < |p| && p[..j] == q[..j] && p[j] != q[j] && !IsWild(p[j]) && !IsWild(q[j])
    ensures Fore(p, q) <==> StrCmp(p[j], q[j]) < 0
    ensures Left(p, q) <==> if (|p| - j) % 2 == 1 then StrCmp(p[j], q[j]) < 0 else StrCmp(q[j], p[j]) < 0
    decreases |p|
  {
    if j == |p| - 1 {
      assert Parent(p) == p[..j] == Parent(q);
    } else {
      assert Parent(p)[j] != Parent(q)[j] && Parent(p)[..j] == p[..j] && Parent(q)[..j] == q[..j];
      LeftIff(Parent(q), Parent(p), j);
      LeftIff(Parent(p), Parent(q), j);
    }
  }
}
