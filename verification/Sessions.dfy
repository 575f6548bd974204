/**
 * The life cycle of subscriptions as a machine on values. Three records must agree: the tree's index,
 * the topic lists of the hash tables, and the option lists of the client contexts.
 */
module Sessions {
  import opened Wrappers
  import opened Topics
  import opened Entries
  import opened Nodes
  import opened Tree
  import opened Options

  /** A client context: the pipe it serves and its option list. */
  datatype Ctx = Ctx(pid: Id, subs: seq<Sub>)

  /** Who holds subscriptions: a connection, or a session whose client is away. */
  datatype Owner = Pipe(id: Id) | Away(id: Id)

  type TopicHash = map<Id, seq<string>>

  /** `next` is the next context to be allocated. */
  datatype State = State(flat: Flat, topics: TopicHash, cached: TopicHash, ctxs: map<Ctxt, Ctx>, next: nat)

  const INIT: State := State(Flat(map[], map[], map[]), map[], map[], map[], 1)

  /** What is listed. An entry may be there and list nothing: a NULL that `check_id` finds all the same. */
  function Get(m: TopicHash, id: Id): seq<string> { if id in m then m[id] else [] }

  /** Reading an entry through `operator[]` stores a NULL one if there is none. */
  function Touched(m: TopicHash, id: Id): TopicHash { if id in m then m else m[id := []] }

  /** `del_topic_one`: the last topic takes the entry with it, but a missing entry becomes a NULL one. */
  function Unlinked(m: TopicHash, id: Id, f: string): TopicHash {
    var q := Get(m, id);
    if q == [] then Touched(m, id) else if q == [f] then m - {id} else m[id := Without(q, f)]
  }

  lemma UnlinkedGet(m: TopicHash, id: Id, f: string)
    ensures forall x: Id :: Get(Unlinked(m, id, f), x) == if x == id then Without(Get(m, id), f) else Get(m, x)
  {
  }

  function ListOf(s: State, o: Owner): seq<string> {
    match o
    case Pipe(id) => Get(s.topics, id)
    case Away(id) => Get(s.cached, id)
  }

  ghost function At(s: State, o: Owner, p: Path): Option<Ctxt> {
    var m := if o.Pipe? then s.flat.live else s.flat.sess;
    if (p, o.id) in m then Some(m[(p, o.id)]) else None
  }

  /** The context of an owner: that of its first listed filter. */
  ghost function CtxOf(s: State, o: Owner): Ctxt {
    if ListOf(s, o) == [] then NULL
    else match At(s, o, Split(ListOf(s, o)[0]))
      case Some(c) => c
      case None => NULL
  }

  predicate NoDup(q: seq<string>) { forall i, j :: 0 <= i < j < |q| ==> q[i] != q[j] }

  ghost predicate AmongPaths(q: seq<string>, p: Path) { exists f :: f in q && Split(f) == p }

  /** The index holds `o` at exactly the filters in `q`, always with context `c`. */
  ghost predicate Indexed(s: State, o: Owner, q: seq<string>, c: Ctxt) {
    && (forall p :: At(s, o, p).Some? ==> AmongPaths(q, p))
    && (forall f :: f in q ==> At(s, o, Split(f)) == Some(c))
  }

  /** Context `c` is allocated, serves `o`, and its option list names exactly `q` and `extra`. */
  ghost predicate Serves(s: State, o: Owner, q: seq<string>, extra: seq<string>, c: Ctxt) {
    && c != NULL && c in s.ctxs && c < s.next
    && NoRepeat(s.ctxs[c].subs)
    && (forall f :: Lists(s.ctxs[c].subs, f) <==> f in q || f in extra)
    && (o.Pipe? ==> s.ctxs[c].pid == o.id)
  }

  /** The three records of one owner agree. */
  ghost predicate Agrees(s: State, o: Owner) {
    var q, c := ListOf(s, o), CtxOf(s, o);
    NoDup(q) && Indexed(s, o, q, c) && (q != [] ==> Serves(s, o, q, [], c))
  }

  /** The owner's topic list holds a filter that matches. */
  ghost predicate Wants(s: State, o: Owner, t: Path) {
    exists f :: f in ListOf(s, o) && Matches(Split(f), t)
  }

  /** The invariant: every owner's records agree, and no two owners share a context. */
  ghost predicate Inv(s: State) {
    && (forall o :: Agrees(s, o))
    && (forall o, o' :: o != o' && ListOf(s, o) != [] && ListOf(s, o') != [] ==> CtxOf(s, o) != CtxOf(s, o'))
    && s.next > 0
  }

  lemma InitAgrees()
    ensures Inv(INIT)
  {
  }

  /** An owner keeps agreeing if nothing of its own changes. */
  ghost predicate Untouched(s: State, s': State, o: Owner) {
    && ListOf(s', o) == ListOf(s, o)
    && (forall p :: At(s', o, p) == At(s, o, p))
    && (ListOf(s, o) != [] ==>
          CtxOf(s, o) in s.ctxs && CtxOf(s, o) in s'.ctxs && s'.ctxs[CtxOf(s, o)] == s.ctxs[CtxOf(s, o)])
    && s.next <= s'.next
  }

  lemma UntouchedAgrees(s: State, s': State, o: Owner)
    requires Agrees(s, o) && Untouched(s, s', o)
    ensures Agrees(s', o) && CtxOf(s', o) == CtxOf(s, o)
  {
    hide Split, NoRepeat, Lists;
    assert CtxOf(s', o) == CtxOf(s, o);
    var q, c := ListOf(s, o), CtxOf(s, o);
    forall p | At(s', o, p).Some? ensures AmongPaths(q, p) { assert At(s, o, p).Some?; }
  }

  /** The option list stored for an owner. */
  ghost function SubsOf(s: State, o: Owner): seq<Sub> {
    if ListOf(s, o) == [] || CtxOf(s, o) !in s.ctxs then [] else s.ctxs[CtxOf(s, o)].subs
  }

  lemma UntouchedSubs(s: State, s': State, o: Owner)
    requires Untouched(s, s', o)
    ensures CtxOf(s', o) == CtxOf(s, o) && SubsOf(s', o) == SubsOf(s, o)
  {
    hide Split;
  }

  /** The context of an owner, if it has one. */
  ghost function OwnCtx(s: State, o: Owner): set<Ctxt> { if ListOf(s, o) == [] then {} else {CtxOf(s, o)} }

  /** Of all contexts only that of one owner may have been freed or allocated. */
  ghost predicate Swapped(s: State, s': State, o: Owner) {
    s'.ctxs.Keys == s.ctxs.Keys - OwnCtx(s, o) + OwnCtx(s', o)
  }

  /** If all owners but one are untouched and that one agrees on its own context, the invariant is kept. */
  lemma InvStep(s: State, s': State, o: Owner)
    requires Inv(s) && Agrees(s', o) && s'.next >= s.next
    requires forall x :: x != o ==> Untouched(s, s', x)
    requires ListOf(s', o) != [] ==> CtxOf(s', o) == CtxOf(s, o) != NULL || CtxOf(s', o) >= s.next
    ensures Inv(s')
  {
    hide Agrees, Untouched, CtxOf;
    forall x ensures Agrees(s', x) { if x != o { UntouchedAgrees(s, s', x); } }
    forall x, y | x != y && ListOf(s', x) != [] && ListOf(s', y) != [] ensures CtxOf(s', x) != CtxOf(s', y) {
      OwnersApart(s, s', o, x, y);
    }
  }

  lemma OwnersApart(s: State, s': State, o: Owner, x: Owner, y: Owner)
    requires Inv(s) && x != y && ListOf(s', x) != [] && ListOf(s', y) != []
    requires forall z :: z != o ==> Untouched(s, s', z)
    requires ListOf(s', o) != [] ==> CtxOf(s', o) == CtxOf(s, o) != NULL || CtxOf(s', o) >= s.next
    ensures CtxOf(s', x) != CtxOf(s', y)
  {
    hide Indexed, Split, NoRepeat, Lists;
    assert Agrees(s, x) && Agrees(s, y);
    if x != o { UntouchedAgrees(s, s', x); }
    if y != o { UntouchedAgrees(s, s', y); }
    if x == o || y == o {
      var z := if x == o then y else x;
      assert Untouched(s, s', z) && CtxOf(s', z) == CtxOf(s, z) < s.next;
      if CtxOf(s', o) < s.next {
        assert CtxOf(s, o) != NULL;
        assert ListOf(s, o) != [];
      }
    }
  }

  // ----- SUBSCRIBE -----

  ghost function Inserted(flat: Flat, p: Path, id: Id, c: Ctxt): Flat {
    if (p, id) in flat.live then flat else flat.(live := flat.live[(p, id) := c])
  }

  /** `add_topic`: the new topic goes second. */
  function Added(q: seq<string>, f: string): seq<string> {
    if q == [] then [f] else [q[0], f] + q[1..]
  }

  ghost function SubscribeOne(s: State, pid: Id, c: Ctxt, f: string): State {
    if f in Get(s.topics, pid) then s
    else s.(flat := Inserted(s.flat, Split(f), pid, c), topics := s.topics[pid := Added(Get(s.topics, pid), f)])
  }

  ghost function SubscribeAll(s: State, pid: Id, c: Ctxt, fs: seq<string>): State
    decreases fs
  {
    if fs == [] then s else SubscribeAll(SubscribeOne(s, pid, c, fs[0]), pid, c, fs[1..])
  }

  /**
   * The context stored in the tree for a pipe, fetched by deleting and reinserting its first topic. Looking
   * for that topic stores a NULL entry for a pipe without one.
   */
  ghost function Refetched(s: State, pid: Id): State {
    var q, t := Get(s.topics, pid), s.(topics := Touched(s.topics, pid));
    if q == [] then t
    else
      var k := (Split(q[0]), pid);
      var was := Looked(s.flat.live, k.0, pid);
      var off := s.flat.(live := s.flat.live - {k});
      t.(flat := if was == NULL then off else Inserted(off, k.0, pid, was))
  }

  ghost function StoredCtx(s: State, pid: Id): Ctxt {
    var q := Get(s.topics, pid);
    if q == [] then NULL else Looked(s.flat.live, Split(q[0]), pid)
  }

  /** The context that a SUBSCRIBE works on, with the packet merged in. */
  ghost function Merged(s: State, pid: Id, pkt: seq<Sub>): State {
    var was := StoredCtx(s, pid);
    var c := if was == NULL then s.next else was;
    var subs := if was == NULL || was !in s.ctxs then [] else s.ctxs[was].subs;
    Refetched(s, pid).(ctxs := s.ctxs[c := Ctx(pid, Merge(subs, pkt))],
                       next := if was == NULL then s.next + 1 else s.next)
  }

  ghost function Subscribe(s: State, pid: Id, pkt: seq<Sub>): State {
    var c := if StoredCtx(s, pid) == NULL then s.next else StoredCtx(s, pid);
    SubscribeAll(Merged(s, pid, pkt), pid, c, Filters(pkt))
  }

  lemma SplitAmong(q: seq<string>, f: string)
    ensures AmongPaths(q, Split(f)) <==> f in q
  {
    if g :| g in q && Split(g) == Split(f) { SplitInjective(g, f); }
  }

  /** In an agreeing state, fetching the context changes no list or entry and finds the owner's context. */
  lemma RefetchSame(s: State, pid: Id)
    requires Agrees(s, Pipe(pid))
    ensures Refetched(s, pid) == s.(topics := Touched(s.topics, pid)) && StoredCtx(s, pid) == CtxOf(s, Pipe(pid))
    ensures StoredCtx(s, pid) == NULL <==> Get(s.topics, pid) == []
  {
    var q := Get(s.topics, pid);
    if q != [] {
      assert q[0] in q;
      var k := (Split(q[0]), pid);
      assert At(s, Pipe(pid), Split(q[0])) == Some(CtxOf(s, Pipe(pid)));
      assert s.flat.live == (s.flat.live - {k})[k := s.flat.live[k]];
    }
  }

  /** Half way through a SUBSCRIBE: listed and indexed filters agree, the context already names the rest. */
  ghost predicate Midway(s: State, o: Owner, rest: seq<string>, c: Ctxt) {
    NoDup(ListOf(s, o)) && Indexed(s, o, ListOf(s, o), c) && Serves(s, o, ListOf(s, o), rest, c)
  }

  lemma AddedExact(q: seq<string>, f: string)
    requires NoDup(q) && f !in q
    ensures NoDup(Added(q, f)) && forall x :: x in Added(q, f) <==> x in q || x == f
  {
    if q != [] {
      var r := Added(q, f);
      assert r[0] == q[0] && r[1] == f && forall i :: 2 <= i < |r| ==> r[i] == q[i - 1];
      assert q == [q[0]] + q[1..];
    }
  }

  lemma SubscribeOneMidway(s: State, pid: Id, c: Ctxt, f: string, rest: seq<string>)
    requires Midway(s, Pipe(pid), [f] + rest, c)
    ensures Midway(SubscribeOne(s, pid, c, f), Pipe(pid), rest, c)
    ensures forall x :: x != Pipe(pid) ==> SameView(s, SubscribeOne(s, pid, c, f), x)
    ensures SubscribeOne(s, pid, c, f).ctxs == s.ctxs && SubscribeOne(s, pid, c, f).next == s.next
  {
    hide Split, NoRepeat, Lists;
    var o := Pipe(pid);
    var s' := SubscribeOne(s, pid, c, f);
    var q := ListOf(s, o);
    if f !in q {
      AddedExact(q, f);
      SplitAmong(q, f);
      assert At(s, o, Split(f)).None?;
      assert ListOf(s', o) == Added(q, f);
      forall p | At(s', o, p).Some? ensures AmongPaths(Added(q, f), p) {
        if p != Split(f) {
          assert At(s, o, p).Some?;
          var g :| g in q && Split(g) == p;
          assert g in Added(q, f);
        } else {
          assert f in Added(q, f);
        }
      }
    }
  }

  function Backwards(fs: seq<string>): (r: seq<string>)
    ensures |r| == |fs| && forall i :: 0 <= i < |r| ==> r[i] == fs[|fs| - 1 - i]
  {
    seq(|fs|, i requires 0 <= i < |fs| => fs[|fs| - 1 - i])
  }

  /** The first filter of a list stays first, and later ones come behind it in front of earlier ones. */
  lemma {:induction false} ListOrder(s: State, pid: Id, c: Ctxt, fs: seq<string>)
    requires NoDup(fs) && (forall f :: f in fs ==> f !in Get(s.topics, pid)) && Get(s.topics, pid) != []
    ensures
      var q := Get(s.topics, pid);
      Get(SubscribeAll(s, pid, c, fs).topics, pid) == [q[0]] + Backwards(fs) + q[1..]
    decreases fs
  {
    hide Split, Inserted;
    var q := Get(s.topics, pid);
    if fs == [] {
      assert [q[0]] + Backwards(fs) + q[1..] == q;
    } else {
      assert fs[0] in fs;
      var s1 := SubscribeOne(s, pid, c, fs[0]);
      var q1 := Get(s1.topics, pid);
      assert q1 == [q[0], fs[0]] + q[1..];
      forall f | f in fs[1..] ensures f !in q1 {
        var i :| 1 <= i < |fs| && fs[i] == f;
        assert f in fs;
      }
      ListOrder(s1, pid, c, fs[1..]);
      assert Backwards(fs) == Backwards(fs[1..]) + [fs[0]];
      assert q1[1..] == [fs[0]] + q[1..];
    }
  }

  /** A first SUBSCRIBE lists its first filter, and then the others from the last one on. */
  lemma SubscribeOrder(s: State, pid: Id, pkt: seq<Sub>)
    requires Get(s.topics, pid) == [] && NoRepeat(pkt) && pkt != []
    ensures
      var fs := Filters(pkt);
      Get(Subscribe(s, pid, pkt).topics, pid) == [fs[0]] + Backwards(fs[1..])
  {
    hide Split, Inserted, Merge;
    var fs, s1 := Filters(pkt), Merged(s, pid, pkt);
    var c := if StoredCtx(s, pid) == NULL then s.next else StoredCtx(s, pid);
    var s2 := SubscribeOne(s1, pid, c, fs[0]);
    assert Get(s1.topics, pid) == [] && Get(s2.topics, pid) == [fs[0]];
    ListOrder(s2, pid, c, fs[1..]);
    assert [fs[0]] + Backwards(fs[1..]) + [] == [fs[0]] + Backwards(fs[1..]);
  }

  /** The list and the index entries of an owner are the same in two states. */
  ghost predicate SameView(s: State, s': State, o: Owner) {
    ListOf(s', o) == ListOf(s, o) && forall p :: At(s', o, p) == At(s, o, p)
  }

  lemma {:induction false} SubscribeAllMidway(s: State, pid: Id, c: Ctxt, fs: seq<string>)
    requires Midway(s, Pipe(pid), fs, c)
    ensures Midway(SubscribeAll(s, pid, c, fs), Pipe(pid), [], c)
    ensures forall x :: x != Pipe(pid) ==> SameView(s, SubscribeAll(s, pid, c, fs), x)
    ensures SubscribeAll(s, pid, c, fs).ctxs == s.ctxs && SubscribeAll(s, pid, c, fs).next == s.next
    decreases fs
  {
    hide Midway, SubscribeOne;
    if fs != [] {
      assert fs == [fs[0]] + fs[1..];
      SubscribeOneMidway(s, pid, c, fs[0], fs[1..]);
      var s1 := SubscribeOne(s, pid, c, fs[0]);
      SubscribeAllMidway(s1, pid, c, fs[1..]);
      forall x | x != Pipe(pid) ensures SameView(s, SubscribeAll(s, pid, c, fs), x) {
        assert SameView(s, s1, x) && SameView(s1, SubscribeAll(s1, pid, c, fs[1..]), x);
      }
    }
  }

  lemma MidwayAgrees(s: State, o: Owner, c: Ctxt)
    requires Midway(s, o, [], c)
    ensures Agrees(s, o) && (ListOf(s, o) != [] ==> CtxOf(s, o) == c)
  {
    if ListOf(s, o) != [] { assert ListOf(s, o)[0] in ListOf(s, o); }
  }

  lemma MergedMidway(s: State, pid: Id, pkt: seq<Sub>)
    requires Inv(s)
    ensures
      var s', c := Merged(s, pid, pkt), if StoredCtx(s, pid) == NULL then s.next else StoredCtx(s, pid);
      && Midway(s', Pipe(pid), Filters(pkt), c)
      && s'.flat == s.flat && (forall x :: ListOf(s', x) == ListOf(s, x)) && s'.next >= s.next
      && (forall x :: x in s.ctxs && x != c ==> x in s'.ctxs && s'.ctxs[x] == s.ctxs[x])
      && (StoredCtx(s, pid) == NULL || c == CtxOf(s, Pipe(pid)))
  {
    hide Split, NoRepeat, Lists, Merge;
    var o := Pipe(pid);
    assert Agrees(s, o);
    RefetchSame(s, pid);
    var s' := Merged(s, pid, pkt);
    var was := StoredCtx(s, pid);
    var c := if was == NULL then s.next else was;
    var subs := if was == NULL then [] else s.ctxs[was].subs;
    EmptySubs();
    forall f
      ensures NoRepeat(s'.ctxs[c].subs) && (Lists(s'.ctxs[c].subs, f) <==> f in ListOf(s, o) || f in Filters(pkt))
    {
      MergeExact(subs, pkt, f);
      ListsFilters(pkt, f);
    }
    assert forall p :: At(s', o, p) == At(s, o, p);
    assert Indexed(s', o, ListOf(s', o), c) by {
      forall p | At(s', o, p).Some? ensures AmongPaths(ListOf(s', o), p) { assert At(s, o, p).Some?; }
    }
    MergeExact(subs, pkt, "");
    assert c != NULL && c in s'.ctxs && c < s'.next;
    assert NoRepeat(s'.ctxs[c].subs) && s'.ctxs[c].pid == pid;
    assert forall f :: Lists(s'.ctxs[c].subs, f) <==> f in ListOf(s', o) || f in Filters(pkt);
  }

  lemma EmptySubs()
    ensures NoRepeat([]) && forall f :: !Lists([], f)
  {
  }

  lemma ListsFilters(pkt: seq<Sub>, f: string)
    ensures Lists(pkt, f) <==> f in Filters(pkt)
  {
    if i :| 0 <= i < |pkt| && pkt[i].filter == f { assert Filters(pkt)[i] == f; }
  }

  /**
   * A SUBSCRIBE keeps the invariant, adds exactly the packet's filters to the pipe, merges the packet
   * into the pipe's one context, and touches no other owner.
   */
  lemma SubscribeKeepsInv(s: State, pid: Id, pkt: seq<Sub>)
    requires Inv(s)
    ensures
      var o, s' := Pipe(pid), Subscribe(s, pid, pkt);
      && Inv(s')
      && (forall f :: f in ListOf(s', o) <==> f in ListOf(s, o) || f in Filters(pkt))
      && (forall x :: x != o ==> Untouched(s, s', x))
      && (ListOf(s', o) != [] ==>
            CtxOf(s', o) in s'.ctxs && s'.ctxs[CtxOf(s', o)] == Ctx(pid, Merge(SubsOf(s, o), pkt)))
      && SubsOf(s', o) == Merge(SubsOf(s, o), pkt)
      && (if pkt == [] && ListOf(s, o) == [] then s'.ctxs.Keys == s.ctxs.Keys + {s.next} else Swapped(s, s', o))
  {
    hide Agrees, Midway, Merged, Untouched, SameView, Merge, Lists;
    var o := Pipe(pid);
    var c := if StoredCtx(s, pid) == NULL then s.next else StoredCtx(s, pid);
    var s1, s' := Merged(s, pid, pkt), Subscribe(s, pid, pkt);
    MergedMidway(s, pid, pkt);
    SubscribeAllMidway(s1, pid, c, Filters(pkt));
    MidwayAgrees(s', o, c);
    forall x | x != o ensures Untouched(s, s', x) { SubscribeUntouched(s, s1, s', pid, c, x); }
    InvStep(s, s', o);
    MergedSubs(s, pid, pkt);
    forall f ensures f in ListOf(s', o) <==> f in ListOf(s, o) || f in Filters(pkt) {
      MidwayLists(s', o, [], c, f);
      MidwayLists(s1, o, Filters(pkt), c, f);
    }
    SubscribeSwaps(s, s', pid, pkt, c);
  }

  /** A pipe without filters gets a new context even from a packet without filters. */
  lemma SubscribeSwaps(s: State, s': State, pid: Id, pkt: seq<Sub>, c: Ctxt)
    requires Inv(s) && s'.ctxs == Merged(s, pid, pkt).ctxs
    requires c == if StoredCtx(s, pid) == NULL then s.next else StoredCtx(s, pid)
    requires forall f :: f in ListOf(s', Pipe(pid)) <==> f in ListOf(s, Pipe(pid)) || f in Filters(pkt)
    requires ListOf(s', Pipe(pid)) != [] ==>
      CtxOf(s', Pipe(pid)) == c && c in s'.ctxs && s'.ctxs[c].subs == Merge(SubsOf(s, Pipe(pid)), pkt)
    ensures SubsOf(s', Pipe(pid)) == Merge(SubsOf(s, Pipe(pid)), pkt)
    ensures if pkt == [] && ListOf(s, Pipe(pid)) == [] then s'.ctxs.Keys == s.ctxs.Keys + {s.next}
            else Swapped(s, s', Pipe(pid))
  {
    hide Merge, Split, Indexed, NoRepeat, Lists;
    var o := Pipe(pid);
    assert Agrees(s, o);
    RefetchSame(s, pid);
    assert pkt != [] ==> Filters(pkt)[0] in Filters(pkt);
    assert ListOf(s, o) != [] ==> ListOf(s, o)[0] in ListOf(s', o);
    assert ListOf(s', o) != [] ==> ListOf(s', o)[0] in ListOf(s', o);
    assert s'.ctxs.Keys == s.ctxs.Keys + {c};
    if ListOf(s', o) == [] { EmptyMerge(); }
  }

  lemma EmptyMerge()
    ensures Merge([], []) == []
  {
  }

  lemma MergedSubs(s: State, pid: Id, pkt: seq<Sub>)
    requires Inv(s)
    ensures
      var s', c := Merged(s, pid, pkt), if StoredCtx(s, pid) == NULL then s.next else StoredCtx(s, pid);
      c in s'.ctxs && s'.ctxs[c] == Ctx(pid, Merge(SubsOf(s, Pipe(pid)), pkt))
  {
    hide Merge;
    assert Agrees(s, Pipe(pid));
    RefetchSame(s, pid);
  }

  lemma MidwayLists(s: State, o: Owner, rest: seq<string>, c: Ctxt, f: string)
    requires Midway(s, o, rest, c)
    ensures c in s.ctxs && (Lists(s.ctxs[c].subs, f) <==> f in ListOf(s, o) || f in rest)
  {
  }

  lemma SubscribeUntouched(s: State, s1: State, s': State, pid: Id, c: Ctxt, x: Owner)
    requires Inv(s) && x != Pipe(pid) && SameView(s1, s', x) && s'.ctxs == s1.ctxs && s'.next == s1.next >= s.next
    requires s1.flat == s.flat && forall y :: ListOf(s1, y) == ListOf(s, y)
    requires forall y :: y in s.ctxs && y != c ==> y in s1.ctxs && s1.ctxs[y] == s.ctxs[y]
    requires c >= s.next || (c == CtxOf(s, Pipe(pid)) && c != NULL)
    ensures Untouched(s, s', x)
  {
    hide Indexed, Split, NoRepeat, Lists;
    assert Agrees(s, x) && Agrees(s, Pipe(pid));
    assert ListOf(s, x) != [] && ListOf(s, Pipe(pid)) != [] ==> CtxOf(s, x) != CtxOf(s, Pipe(pid));
  }

  // ----- UNSUBSCRIBE and clean disconnect -----

  /** `del_sub_ctx`: one filter leaves the option list; an empty context is freed. */
  ghost function FilterGone(s: State, c: Ctxt, f: string): State {
    if c == NULL || c !in s.ctxs then s
    else
      var subs := Remove(s.ctxs[c].subs, f);
      s.(ctxs := if subs == [] then s.ctxs - {c} else s.ctxs[c := s.ctxs[c].(subs := subs)])
  }

  /** Tree and context lose one filter of a pipe. */
  ghost function DropOne(s: State, pid: Id, f: string): State {
    FilterGone(s.(flat := Pulled(s.flat, Split(f), 0, pid, DeleteClient)), Looked(s.flat.live, Split(f), pid), f)
  }

  ghost function UnsubscribeOne(s: State, pid: Id, f: string): State {
    DropOne(s, pid, f).(topics := Unlinked(s.topics, pid, f))
  }

  const SUCCESS: int := 0x00
  const NO_SUBSCRIPTION: int := 0x11

  ghost function ReasonOne(s: State, pid: Id, f: string): int {
    if Looked(s.flat.live, Split(f), pid) != NULL then SUCCESS else NO_SUBSCRIPTION
  }

  ghost function Unsubscribe(s: State, pid: Id, fs: seq<string>): State
    decreases fs
  {
    if fs == [] then s else Unsubscribe(UnsubscribeOne(s, pid, fs[0]), pid, fs[1..])
  }

  ghost function DropAll(s: State, pid: Id, q: seq<string>): State
    decreases q
  {
    if q == [] then s else DropAll(DropOne(s, pid, q[0]), pid, q[1..])
  }

  /** Clean disconnect: every topic of the pipe is deleted, then its list. */
  ghost function Cleared(s: State, pid: Id): State {
    DropAll(s, pid, Get(s.topics, pid)).(topics := s.topics - {pid})
  }

  lemma {:induction false} WithoutExact(q: seq<string>, f: string)
    requires NoDup(q)
    ensures NoDup(Without(q, f)) && forall x :: x in Without(q, f) <==> x in q && x != f
  {
    if q != [] {
      WithoutExact(q[1..], f);
      assert q == [q[0]] + q[1..];
      if q[0] == f {
        assert f !in q[1..];
      } else {
        var w := Without(q[1..], f);
        assert q[0] !in q[1..] && q[0] !in w;
        assert forall i :: 1 <= i < |[q[0]] + w| ==> ([q[0]] + w)[i] == w[i - 1];
      }
    }
  }

  /** The index holds `o` at `q` with context `c`, which names exactly `q` unless `q` is empty. */
  ghost predicate Holding(s: State, o: Owner, q: seq<string>, c: Ctxt) {
    NoDup(q) && Indexed(s, o, q, c) && (q != [] ==> Serves(s, o, q, [], c))
  }

  /** What dropping filters of `o` leaves alone: other owners' entries, other contexts, both hash tables. */
  ghost predicate OnlyDrops(s: State, s': State, o: Owner, c: Ctxt) {
    && s'.topics == s.topics && s'.cached == s.cached && s'.next == s.next
    && (forall x, p :: x != o ==> At(s', x, p) == At(s, x, p))
    && (forall y :: y in s.ctxs && y != c ==> y in s'.ctxs && s'.ctxs[y] == s.ctxs[y])
    && s'.ctxs.Keys <= s.ctxs.Keys
  }

  /** The option list of a context; one that was freed has none. */
  ghost function SubsAt(s: State, c: Ctxt): seq<Sub> { if c in s.ctxs then s.ctxs[c].subs else [] }

  lemma DropOneHolding(s: State, pid: Id, q: seq<string>, c: Ctxt, f: string)
    requires Holding(s, Pipe(pid), q, c) && f in q
    ensures Holding(DropOne(s, pid, f), Pipe(pid), Without(q, f), c)
    ensures OnlyDrops(s, DropOne(s, pid, f), Pipe(pid), c)
    ensures SubsAt(DropOne(s, pid, f), c) == Remove(SubsAt(s, c), f)
    ensures c in DropOne(s, pid, f).ctxs <==> Without(q, f) != []
  {
    hide Split, NoRepeat, Lists, Remove, Without;
    var o := Pipe(pid);
    var s', q' := DropOne(s, pid, f), Without(q, f);
    WithoutExact(q, f);
    assert At(s, o, Split(f)) == Some(c);
    forall p ensures At(s', o, p) == if p == Split(f) then None else At(s, o, p) {}
    forall p | At(s', o, p).Some? ensures AmongPaths(q', p) {
      var g :| g in q && Split(g) == p;
      assert g in q';
    }
    forall g | g in q' ensures At(s', o, Split(g)) == Some(c) {
      if Split(g) == Split(f) { SplitInjective(g, f); }
    }
    var subs := s.ctxs[c].subs;
    RemoveLast(subs, f);
    forall g ensures NoRepeat(Remove(subs, f)) && (Lists(Remove(subs, f), g) <==> g in q') { RemoveExact(subs, f, g); }
    if q' != [] {
      assert q'[0] in q' && Lists(subs, q'[0]);
      RemoveExact(subs, f, f);
    }
  }

  lemma DropOneMissing(s: State, pid: Id, q: seq<string>, c: Ctxt, f: string)
    requires Holding(s, Pipe(pid), q, c) && f !in q
    ensures DropOne(s, pid, f) == s && Looked(s.flat.live, Split(f), pid) == NULL
  {
    hide Split;
    SplitAmong(q, f);
    assert At(s, Pipe(pid), Split(f)).None?;
    assert s.flat.live - {(Split(f), pid)} == s.flat.live;
  }

  lemma HoldingAgrees(s: State, o: Owner)
    ensures Agrees(s, o) <==> Holding(s, o, ListOf(s, o), CtxOf(s, o))
    ensures forall c :: Holding(s, o, ListOf(s, o), c) ==> Agrees(s, o) && (ListOf(s, o) != [] ==> CtxOf(s, o) == c)
  {
    hide Split;
    forall c | Holding(s, o, ListOf(s, o), c) ensures Agrees(s, o) && (ListOf(s, o) != [] ==> CtxOf(s, o) == c) {
      if ListOf(s, o) != [] { assert ListOf(s, o)[0] in ListOf(s, o); }
    }
  }

  /** After drops, everyone but the dropping pipe is untouched. */
  lemma DropsUntouched(s: State, s1: State, s': State, pid: Id, x: Owner)
    requires Inv(s) && OnlyDrops(s, s1, Pipe(pid), CtxOf(s, Pipe(pid))) && x != Pipe(pid)
    requires s'.flat == s1.flat && s'.ctxs == s1.ctxs && s'.next == s1.next && s'.cached == s1.cached
    requires forall id: Id :: id != pid ==> Get(s'.topics, id) == Get(s.topics, id)
    requires ListOf(s, Pipe(pid)) != []
    ensures Untouched(s, s', x)
  {
    hide Indexed, Split, NoRepeat, Lists;
    assert Agrees(s, x) && Agrees(s, Pipe(pid));
    assert forall p :: At(s', x, p) == At(s1, x, p);
  }

  /** The context goes with the owner's last filter. */
  lemma HoldingSwapped(s: State, s1: State, s': State, o: Owner, q: seq<string>, c: Ctxt)
    requires q != [] && Holding(s, o, q, c) && q == ListOf(s, o) && c == CtxOf(s, o)
    requires OnlyDrops(s, s1, o, c) && s'.ctxs == s1.ctxs && (c in s1.ctxs <==> ListOf(s', o) != [])
    requires ListOf(s', o) != [] ==> CtxOf(s', o) == c
    ensures Swapped(s, s', o) && OwnCtx(s', o) <= OwnCtx(s, o)
    ensures SubsOf(s, o) == SubsAt(s, c) && SubsOf(s', o) == SubsAt(s1, c)
  {
    hide Indexed, NoRepeat, Lists, CtxOf;
  }

  /**
   * UNSUBSCRIBE of one filter: the reason code tells whether it was held, and exactly it is gone. The other
   * filters keep their options, and the context goes with the last one.
   */
  lemma UnsubscribeOneKeepsInv(s: State, pid: Id, f: string)
    requires Inv(s)
    ensures
      var o, s' := Pipe(pid), UnsubscribeOne(s, pid, f);
      && Inv(s')
      && (forall g :: g in ListOf(s', o) <==> g in ListOf(s, o) && g != f)
      && (forall x :: x != o ==> Untouched(s, s', x))
      && ReasonOne(s, pid, f) == (if f in ListOf(s, o) then 0x00 else 0x11)
      && SubsOf(s', o) == Remove(SubsOf(s, o), f)
      && Swapped(s, s', o) && OwnCtx(s', o) <= OwnCtx(s, o)
  {
    hide Agrees, Holding, DropOne, Untouched, Without, OnlyDrops, CtxOf, Split, Serves, Indexed;
    hide Swapped, SubsOf, SubsAt, OwnCtx, Remove;
    var o := Pipe(pid);
    var q, c := ListOf(s, o), CtxOf(s, o);
    var s1, s' := DropOne(s, pid, f), UnsubscribeOne(s, pid, f);
    HoldingAgrees(s, o);
    HoldingNoDup(s, o, q, c);
    WithoutExact(q, f);
    UnlinkedGet(s.topics, pid, f);
    if f in q {
      DropOneHolding(s, pid, q, c, f);
      HeldCtx(s, pid, q, c, f);
      assert ListOf(s', o) == Without(q, f);
      HoldingSame(s1, s', o, Without(q, f), c);
      HoldingAgrees(s', o);
      forall x | x != o ensures Untouched(s, s', x) { DropsUntouched(s, s1, s', pid, x); }
      OnlyDropsNext(s, s1, o, c);
      InvStep(s, s', o);
      HoldingSwapped(s, s1, s', o, q, c);
    } else {
      DropOneMissing(s, pid, q, c, f);
      WithoutMissing(q, f);
      NotListed(s, s', o, f);
      forall x ensures Untouched(s, s', x) { SelfUntouched(s, s', x); }
      AllUntouched(s, s');
    }
  }

  /** Nothing to remove: no list, entry or context changes. */
  lemma NotListed(s: State, s': State, o: Owner, f: string)
    requires Agrees(s, o) && f !in ListOf(s, o)
    requires s'.flat == s.flat && s'.ctxs == s.ctxs && ListOf(s', o) == ListOf(s, o)
    ensures SubsOf(s', o) == SubsOf(s, o) == Remove(SubsOf(s, o), f)
    ensures Swapped(s, s', o) && OwnCtx(s', o) <= OwnCtx(s, o)
  {
    hide Split, Indexed;
    assert forall p :: At(s', o, p) == At(s, o, p);
    assert CtxOf(s', o) == CtxOf(s, o);
    IndexLists(SubsOf(s, o), f);
  }

  lemma OnlyDropsNext(s: State, s': State, o: Owner, c: Ctxt)
    requires OnlyDrops(s, s', o, c)
    ensures s'.next == s.next
  {
  }

  lemma HoldingNoDup(s: State, o: Owner, q: seq<string>, c: Ctxt)
    requires Holding(s, o, q, c)
    ensures NoDup(q)
  {
  }

  lemma HeldCtx(s: State, pid: Id, q: seq<string>, c: Ctxt, f: string)
    requires Holding(s, Pipe(pid), q, c) && f in q
    ensures Looked(s.flat.live, Split(f), pid) == c != NULL
  {
    assert At(s, Pipe(pid), Split(f)) == Some(c);
  }

  lemma HoldingSame(s: State, s': State, o: Owner, q: seq<string>, c: Ctxt)
    requires Holding(s, o, q, c) && s'.flat == s.flat && s'.ctxs == s.ctxs && s'.next == s.next
    ensures Holding(s', o, q, c)
  {
    hide Split, Lists, NoRepeat;
    assert forall p :: At(s', o, p) == At(s, o, p);
    forall p | At(s', o, p).Some? ensures AmongPaths(q, p) { assert At(s, o, p).Some?; }
  }

  lemma {:induction false} WithoutMissing(q: seq<string>, f: string)
    requires f !in q
    ensures Without(q, f) == q
  {
    if q != [] { WithoutMissing(q[1..], f); }
  }

  lemma SelfUntouched(s: State, s': State, x: Owner)
    requires Inv(s) && s'.flat == s.flat && s'.ctxs == s.ctxs && s'.next == s.next && s'.cached == s.cached
    requires forall id: Id :: Get(s'.topics, id) == Get(s.topics, id)
    ensures Untouched(s, s', x)
  {
    hide Split, Lists, NoRepeat, Indexed;
    assert Agrees(s, x);
  }

  lemma AllUntouched(s: State, s': State)
    requires Inv(s) && forall x :: Untouched(s, s', x)
    ensures Inv(s')
  {
    var o := Pipe(0);
    assert Untouched(s, s', o);
    UntouchedAgrees(s, s', o);
    assert Agrees(s, o);
    InvStep(s, s', o);
  }

  lemma OwnAllocated(s: State, o: Owner)
    requires Inv(s)
    ensures OwnCtx(s, o) <= s.ctxs.Keys
  {
    hide Indexed, Split;
    assert Agrees(s, o);
  }

  /** In agreement an owner's option list names its filters. */
  lemma SubsListed(s: State, o: Owner)
    requires Agrees(s, o)
    ensures NoRepeat(SubsOf(s, o)) && forall f :: Lists(SubsOf(s, o), f) <==> f in ListOf(s, o)
  {
    hide Indexed, Split;
    EmptySubs();
  }

  /** UNSUBSCRIBE of a whole packet: exactly the filters named go, and the rest keep their options. */
  lemma {:induction false} UnsubscribeKeepsInv(s: State, pid: Id, fs: seq<string>)
    requires Inv(s)
    ensures
      var o, s' := Pipe(pid), Unsubscribe(s, pid, fs);
      && Inv(s')
      && (forall g :: g in ListOf(s', o) <==> g in ListOf(s, o) && g !in fs)
      && (forall x :: x != o ==> SameView(s, s', x) && SubsOf(s', x) == SubsOf(s, x))
      && SubsOf(s', o) == RemoveAll(SubsOf(s, o), fs)
      && Swapped(s, s', o) && OwnCtx(s', o) <= OwnCtx(s, o)
    decreases fs
  {
    hide Inv, UnsubscribeOne, Untouched, At, SubsOf, OwnCtx, Remove;
    OwnAllocated(s, Pipe(pid));
    if fs != [] {
      var s1 := UnsubscribeOne(s, pid, fs[0]);
      UnsubscribeOneKeepsInv(s, pid, fs[0]);
      UnsubscribeKeepsInv(s1, pid, fs[1..]);
      assert fs == [fs[0]] + fs[1..];
      var s' := Unsubscribe(s1, pid, fs[1..]);
      forall x | x != Pipe(pid) ensures SameView(s, s', x) && SubsOf(s', x) == SubsOf(s, x) {
        UntouchedView(s, s1, x);
        UntouchedSubs(s, s1, x);
        assert SameView(s1, s', x);
      }
    }
  }

  /** The filters that stay keep their options. */
  lemma UnsubscribeKeepsOpts(s: State, pid: Id, fs: seq<string>, g: string)
    requires Inv(s)
    ensures
      var o, s' := Pipe(pid), Unsubscribe(s, pid, fs);
      && Inv(s')
      && (g in ListOf(s', o) ==>
            Lists(SubsOf(s, o), g) && Lists(SubsOf(s', o), g) && OptsOf(SubsOf(s', o), g) == OptsOf(SubsOf(s, o), g))
  {
    hide Unsubscribe, Agrees, SubsOf, RemoveAll, Lists, NoRepeat, OwnCtx;
    var o, s' := Pipe(pid), Unsubscribe(s, pid, fs);
    UnsubscribeKeepsInv(s, pid, fs);
    SubsListed(s, o);
    SubsListed(s', o);
    RemoveAllExact(SubsOf(s, o), fs, g);
  }

  lemma UntouchedView(s: State, s': State, x: Owner)
    requires Untouched(s, s', x)
    ensures SameView(s, s', x)
  {
  }

  lemma {:induction false} DropAllHolding(s: State, pid: Id, q: seq<string>, c: Ctxt)
    requires Holding(s, Pipe(pid), q, c)
    ensures Holding(DropAll(s, pid, q), Pipe(pid), [], c)
    ensures OnlyDrops(s, DropAll(s, pid, q), Pipe(pid), c)
    ensures q != [] ==> c !in DropAll(s, pid, q).ctxs
    decreases q
  {
    hide Holding, DropOne, SubsAt;
    if q != [] {
      assert q[0] in q && Without(q, q[0]) == q[1..];
      DropOneHolding(s, pid, q, c, q[0]);
      DropAllHolding(DropOne(s, pid, q[0]), pid, q[1..], c);
    }
  }

  /** A clean disconnect removes the pipe from all three records and touches no other owner. */
  lemma ClearedKeepsInv(s: State, pid: Id)
    requires Inv(s)
    ensures
      var o, s' := Pipe(pid), Cleared(s, pid);
      && Inv(s') && ListOf(s', o) == [] && (forall p :: At(s', o, p).None?)
      && (forall x :: x != o ==> Untouched(s, s', x)) && Swapped(s, s', o)
  {
    hide Agrees, Holding, Untouched, OnlyDrops, CtxOf, Split, Serves, Indexed, DropAll, Swapped;
    var o := Pipe(pid);
    var q, c := ListOf(s, o), CtxOf(s, o);
    var s1, s' := DropAll(s, pid, q), Cleared(s, pid);
    HoldingAgrees(s, o);
    DropAllHolding(s, pid, q, c);
    HoldingSame(s1, s', o, [], c);
    HoldingAgrees(s', o);
    HoldingNone(s', o, c);
    OnlyDropsNext(s, s1, o, c);
    if q != [] {
      OnlyDropsHash(s, s1, o, c);
      forall x | x != o ensures Untouched(s, s', x) { DropsUntouched(s, s1, s', pid, x); }
      HoldingSwapped(s, s1, s', o, q, c);
    } else {
      assert s1 == s by { NothingDropped(s, pid); }
      NothingSwapped(s, s', o);
      forall x ensures Untouched(s, s', x) { SelfUntouched(s, s', x); }
    }
    InvStep(s, s', o);
  }

  lemma NothingSwapped(s: State, s': State, o: Owner)
    requires s'.ctxs == s.ctxs && ListOf(s, o) == [] && ListOf(s', o) == []
    ensures Swapped(s, s', o)
  {
  }

  lemma OnlyDropsHash(s: State, s': State, o: Owner, c: Ctxt)
    requires OnlyDrops(s, s', o, c)
    ensures s'.topics == s.topics && s'.cached == s.cached
  {
  }

  lemma NothingDropped(s: State, pid: Id)
    ensures DropAll(s, pid, []) == s
  {
  }

  lemma HoldingNone(s: State, o: Owner, c: Ctxt)
    requires Holding(s, o, [], c)
    ensures forall p :: At(s, o, p).None?
  {
    forall p ensures At(s, o, p).None? { assert !AmongPaths([], p); }
  }
}
