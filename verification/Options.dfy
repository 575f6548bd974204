/** The option list of a client context: merging subscribe packets and removing filters. */
module Options {
  import opened Wrappers

  datatype Opts = Opts(qos: nat, noLocal: bool, retainAsPublished: bool, retainHandling: nat)

  datatype Sub = Sub(filter: string, opts: Opts)

  /** Position of a filter in a list, or its length. */
  function Index(subs: seq<Sub>, f: string): (i: nat)
    ensures i <= |subs|
    ensures i < |subs| ==> subs[i].filter == f
    ensures forall j :: 0 <= j < i ==> subs[j].filter != f
  {
    if subs == [] || subs[0].filter == f then 0 else 1 + Index(subs[1..], f)
  }

  predicate Lists(subs: seq<Sub>, f: string) { exists i :: 0 <= i < |subs| && subs[i].filter == f }

  predicate NoRepeat(subs: seq<Sub>) {
    forall i, j :: 0 <= i < j < |subs| ==> subs[i].filter != subs[j].filter
  }

  function Filters(subs: seq<Sub>): (r: seq<string>)
    ensures |r| == |subs| && forall i :: 0 <= i < |subs| ==> r[i] == subs[i].filter
  {
    seq(|subs|, i requires 0 <= i < |subs| => subs[i].filter)
  }

  /** One packet entry: its options replace those stored for the filter, or the entry goes last. */
  function MergeOne(subs: seq<Sub>, x: Sub): seq<Sub> {
    var i := Index(subs, x.filter);
    if i < |subs| then subs[i := x] else subs + [x]
  }

  function Merge(subs: seq<Sub>, pkt: seq<Sub>): seq<Sub>
    decreases pkt
  {
    if pkt == [] then subs else Merge(MergeOne(subs, pkt[0]), pkt[1..])
  }

  function Remove(subs: seq<Sub>, f: string): seq<Sub> {
    var i := Index(subs, f);
    if i < |subs| then subs[..i] + subs[i + 1..] else subs
  }

  /** `cli_ctx_merge`: for each packet entry, a scan of the stored list, then update or append. */
  method MergeContext(stored: seq<Sub>, pkt: seq<Sub>) returns (r: seq<Sub>)
    ensures r == Merge(stored, pkt)
  {
    r := stored;
    for n := 0 to |pkt|
      invariant Merge(r, pkt[n..]) == Merge(stored, pkt)
    {
      var x := pkt[n];
      var i := 0;
      while i < |r| && r[i].filter != x.filter
        invariant i <= Index(r, x.filter)
      {
        i := i + 1;
      }
      assert i == Index(r, x.filter);
      assert pkt[n..][1..] == pkt[n + 1..];
      if i < |r| {
        r := r[i := r[i].(opts := x.opts)];
      } else {
        r := r + [x];
      }
    }
  }

  /** The list part of `del_sub_ctx`. */
  method RemoveFilter(stored: seq<Sub>, f: string) returns (r: seq<Sub>)
    ensures r == Remove(stored, f)
  {
    var i := 0;
    while i < |stored| && stored[i].filter != f
      invariant i <= Index(stored, f)
    {
      i := i + 1;
    }
    assert i == Index(stored, f);
    r := if i < |stored| then stored[..i] + stored[i + 1..] else stored;
  }

  lemma IndexLists(subs: seq<Sub>, f: string)
    ensures Index(subs, f) < |subs| <==> Lists(subs, f)
  {
  }

  /** The options a list holds for a filter. */
  function OptsOf(subs: seq<Sub>, f: string): (o: Opts)
    requires Lists(subs, f)
    ensures exists i :: 0 <= i < |subs| && subs[i] == Sub(f, o)
  {
    IndexLists(subs, f);
    subs[Index(subs, f)].opts
  }

  lemma OptsAt(subs: seq<Sub>, i: nat)
    requires NoRepeat(subs) && i < |subs|
    ensures Lists(subs, subs[i].filter) && OptsOf(subs, subs[i].filter) == subs[i].opts
  {
  }

  lemma MergeOneExact(subs: seq<Sub>, x: Sub, f: string)
    requires NoRepeat(subs)
    ensures NoRepeat(MergeOne(subs, x))
    ensures Lists(MergeOne(subs, x), f) <==> Lists(subs, f) || f == x.filter
    ensures Lists(MergeOne(subs, x), f) ==>
              OptsOf(MergeOne(subs, x), f) == if f == x.filter then x.opts else OptsOf(subs, f)
    ensures Filters(MergeOne(subs, x)) == Filters(subs) + (if Lists(subs, x.filter) then [] else [x.filter])
  {
    var r := MergeOne(subs, x);
    var i := Index(subs, x.filter);
    IndexLists(subs, x.filter);
    assert r[i] == x;
    if Lists(subs, f) {
      var j := Index(subs, f);
      IndexLists(subs, f);
      assert r[j].filter == f;
      OptsAt(r, j);
    }
    if Lists(r, f) {
      var j :| 0 <= j < |r| && r[j].filter == f;
      assert j != i ==> subs[j] == r[j];
      OptsAt(r, j);
      if j == i { assert f == x.filter; } else { OptsAt(subs, j); }
    }
  }

  lemma RemoveCons(subs: seq<Sub>, g: string)
    requires subs != []
    ensures Remove(subs, g) == if subs[0].filter == g then subs[1..] else [subs[0]] + Remove(subs[1..], g)
  {
    hide Filters;
    assert subs == [subs[0]] + subs[1..];
    var i := Index(subs, g);
    if i > 0 {
      assert i == 1 + Index(subs[1..], g);
      if i < |subs| {
        assert subs[..i] == [subs[0]] + subs[1..][..i - 1];
        assert subs[i + 1..] == subs[1..][i..];
      }
    }
  }

  lemma {:induction false} RemoveExact(subs: seq<Sub>, g: string, f: string)
    requires NoRepeat(subs)
    ensures NoRepeat(Remove(subs, g))
    ensures Lists(Remove(subs, g), f) <==> Lists(subs, f) && f != g
    ensures Lists(Remove(subs, g), f) ==> OptsOf(Remove(subs, g), f) == OptsOf(subs, f)
  {
    if subs != [] {
      hide Remove;
      var h, rest := subs[0], subs[1..];
      RemoveCons(subs, g);
      ListsCons(subs, f);
      OptsCons(subs, f);
      if h.filter == g {
        assert !Lists(rest, g);
      } else {
        RemoveExact(rest, g, f);
        RemoveExact(rest, g, h.filter);
        var r := Remove(rest, g);
        assert !Lists(rest, h.filter);
        NoRepeatCons(h, r);
        assert ([h] + r)[1..] == r;
        ListsCons([h] + r, f);
        OptsCons([h] + r, f);
      }
    }
  }

  lemma NoRepeatCons(h: Sub, r: seq<Sub>)
    requires NoRepeat(r) && !Lists(r, h.filter)
    ensures NoRepeat([h] + r)
  {
  }

  lemma OptsCons(subs: seq<Sub>, f: string)
    requires subs != []
    ensures Lists(subs, f) ==>
              OptsOf(subs, f) ==
              if subs[0].filter == f then subs[0].opts
              else (IndexLists(subs[1..], f); ListsCons(subs, f); OptsOf(subs[1..], f))
  {
    ListsCons(subs, f);
  }

  function RemoveAll(subs: seq<Sub>, fs: seq<string>): seq<Sub>
    decreases fs
  {
    if fs == [] then subs else RemoveAll(Remove(subs, fs[0]), fs[1..])
  }

  /** Exactly the filters named go, and the rest keep their options. */
  lemma {:induction false} RemoveAllExact(subs: seq<Sub>, fs: seq<string>, f: string)
    requires NoRepeat(subs)
    ensures NoRepeat(RemoveAll(subs, fs))
    ensures Lists(RemoveAll(subs, fs), f) <==> Lists(subs, f) && f !in fs
    ensures Lists(RemoveAll(subs, fs), f) ==> OptsOf(RemoveAll(subs, fs), f) == OptsOf(subs, f)
    decreases fs
  {
    hide Remove;
    if fs != [] {
      RemoveExact(subs, fs[0], f);
      RemoveAllExact(Remove(subs, fs[0]), fs[1..], f);
      assert fs == [fs[0]] + fs[1..];
    }
  }

  lemma RemoveLast(subs: seq<Sub>, g: string)
    requires NoRepeat(subs)
    ensures Remove(subs, g) == [] <==> forall x :: Lists(subs, x) ==> x == g
  {
    if Remove(subs, g) != [] {
      var f := Remove(subs, g)[0].filter;
      RemoveExact(subs, g, f);
      assert Lists(subs, f) && f != g;
    } else if x :| Lists(subs, x) && x != g {
      RemoveExact(subs, g, x);
      assert false;
    }
  }

  lemma {:induction false} MergeExact(subs: seq<Sub>, pkt: seq<Sub>, f: string)
    requires NoRepeat(subs)
    ensures NoRepeat(Merge(subs, pkt))
    ensures Lists(Merge(subs, pkt), f) <==> Lists(subs, f) || Lists(pkt, f)
    ensures Lists(Merge(subs, pkt), f) ==>
              OptsOf(Merge(subs, pkt), f) == if Lists(pkt, f) then LastOpts(pkt, f) else OptsOf(subs, f)
    decreases pkt
  {
    if pkt != [] {
      var x, rest := pkt[0], pkt[1..];
      MergeOneExact(subs, x, f);
      MergeExact(MergeOne(subs, x), rest, f);
      ListsCons(pkt, f);
    }
  }

  lemma ListsCons(pkt: seq<Sub>, f: string)
    requires pkt != []
    ensures Lists(pkt, f) <==> pkt[0].filter == f || Lists(pkt[1..], f)
    ensures Lists(pkt, f) ==> LastOpts(pkt, f) == if Lists(pkt[1..], f) then LastOpts(pkt[1..], f) else pkt[0].opts
  {
    if i :| 0 <= i < |pkt| && pkt[i].filter == f {
      if i > 0 { assert pkt[1..][i - 1].filter == f; }
    }
    if i :| 0 <= i < |pkt[1..]| && pkt[1..][i].filter == f { assert pkt[i + 1].filter == f; }
  }

  /** The options of the last entry of a packet that names a filter. */
  function LastOpts(pkt: seq<Sub>, f: string): Opts
    requires Lists(pkt, f)
  {
    if Lists(pkt[1..], f) then LastOpts(pkt[1..], f) else pkt[0].opts
  }

  datatype Change = Packet(subs: seq<Sub>) | Drop(filter: string)

  function Apply(subs: seq<Sub>, c: Change): seq<Sub> {
    match c
    case Packet(pkt) => Merge(subs, pkt)
    case Drop(f) => Remove(subs, f)
  }

  function Run(h: seq<Change>): seq<Sub> {
    if h == [] then [] else Apply(Run(h[..|h| - 1]), h[|h| - 1])
  }

  /** What a history last said about a filter. */
  function Latest(h: seq<Change>, f: string): Option<Opts> {
    if h == [] then None
    else match h[|h| - 1]
      case Drop(g) => if g == f then None else Latest(h[..|h| - 1], f)
      case Packet(pkt) => if Lists(pkt, f) then Some(LastOpts(pkt, f)) else Latest(h[..|h| - 1], f)
  }

  /** For every history the stored list has no repeated filter and holds what was last said of each. */
  lemma {:induction false} RunExact(h: seq<Change>, f: string)
    ensures NoRepeat(Run(h))
    ensures Lists(Run(h), f) <==> Latest(h, f).Some?
    ensures Lists(Run(h), f) ==> Latest(h, f) == Some(OptsOf(Run(h), f))
  {
    if h != [] {
      var p := h[..|h| - 1];
      RunExact(p, f);
      match h[|h| - 1]
      case Packet(pkt) => MergeExact(Run(p), pkt, f);
      case Drop(g) => RemoveExact(Run(p), g, f);
    }
  }

  /** Filter names in the order in which they were first seen since they were last removed. */
  function SeenAfter(q: seq<string>, pkt: seq<Sub>): seq<string>
    decreases pkt
  {
    if pkt == [] then q
    else SeenAfter(if pkt[0].filter in q then q else q + [pkt[0].filter], pkt[1..])
  }

  function Without(q: seq<string>, f: string): seq<string> {
    if q == [] then [] else if q[0] == f then q[1..] else [q[0]] + Without(q[1..], f)
  }

  function Seen(h: seq<Change>): seq<string> {
    if h == [] then []
    else match h[|h| - 1]
      case Drop(f) => Without(Seen(h[..|h| - 1]), f)
      case Packet(pkt) => SeenAfter(Seen(h[..|h| - 1]), pkt)
  }

  lemma {:induction false} MergeOrder(subs: seq<Sub>, pkt: seq<Sub>)
    requires NoRepeat(subs)
    ensures Filters(Merge(subs, pkt)) == SeenAfter(Filters(subs), pkt)
    decreases pkt
  {
    if pkt != [] {
      var x := pkt[0];
      MergeOneExact(subs, x, x.filter);
      assert Lists(subs, x.filter) <==> x.filter in Filters(subs) by {
        if i :| 0 <= i < |subs| && subs[i].filter == x.filter { assert Filters(subs)[i] == x.filter; }
      }
      assert Filters(subs) + [] == Filters(subs);
      MergeOrder(MergeOne(subs, x), pkt[1..]);
    }
  }

  lemma {:induction false} RemoveOrder(subs: seq<Sub>, f: string)
    ensures Filters(Remove(subs, f)) == Without(Filters(subs), f)
  {
    if subs != [] {
      var rest := subs[1..];
      assert Filters(subs)[1..] == Filters(rest);
      hide Remove;
      RemoveOrder(rest, f);
      RemoveCons(subs, f);
    }
  }

  /** The stored order is the first-seen order. */
  lemma {:induction false} RunOrder(h: seq<Change>)
    ensures Filters(Run(h)) == Seen(h)
  {
    if h != [] {
      var p := h[..|h| - 1];
      RunOrder(p);
      RunExact(p, "");
      match h[|h| - 1]
      case Packet(pkt) => MergeOrder(Run(p), pkt);
      case Drop(f) => RemoveOrder(Run(p), f);
    }
  }
}
