/** Laws of the tree as a whole: what it holds determines its shape, and insertion can be undone. */
module TreeLaws {
  import opened Strings
  import opened Topics
  import opened Entries
  import opened Nodes
  import opened Tree

  lemma TailRecords<V>(v: seq<Entry<V>>)
    requires v != [] && Descending(v)
    ensures forall e :: e in v[1..] <==> e in v && e != v[0]
  {
    forall e ensures e in v[1..] <==> e in v && e != v[0] {
      if e in v && e != v[0] {
        var i :| 0 <= i < |v| && v[i] == e;
        assert v[1..][i - 1] == e;
      }
      if e in v[1..] {
        var i :| 0 <= i < |v| - 1 && v[1..][i] == e;
        assert v[0].id > v[i + 1].id;
      }
    }
  }

  lemma HeadRecord<V>(v: seq<Entry<V>>)
    ensures v != [] ==> v[0] in v
  {
  }

  /** A sorted vector is determined by its records. */
  lemma {:induction false} SortedUnique<V>(v: seq<Entry<V>>, w: seq<Entry<V>>)
    requires Descending(v) && Descending(w)
    requires forall e :: e in v <==> e in w
    ensures v == w
  {
    if v == [] {
      HeadRecord(w);
    } else {
      assert v[0] in w;
      assert w[0] in v;
      var i :| 0 <= i < |w| && w[i] == v[0];
      var j :| 0 <= j < |v| && v[j] == w[0];
      assert i == 0 && j == 0 by {
        assert w[0].id >= w[i].id && v[0].id >= v[j].id;
      }
      assert v == [v[0]] + v[1..] && w == [w[0]] + w[1..];
      TailRecords(v);
      TailRecords(w);
      SortedUnique(v[1..], w[1..]);
    }
  }

  /** Some filter in use lies at or below `p`. */
  ghost predicate Needed(flat: Flat, p: Path) {
    p == [] || (exists k :: k in flat.live && p <= k.0) || (exists k :: k in flat.sess && p <= k.0)
  }

  lemma {:induction false} MinimalNeeds(db: DbTree, p: Path)
    requires db.Valid() && db.Minimal() && p in db.nodes
    ensures Needed(db.flat, p)
    decreases set q | q in db.nodes && p <= q
  {
    hide StrCmp, Layout;
    var n := db.nodes[p];
    assert db.Stores(db.flat, n) && Linked(db.nodes, n);
    if p != [] {
      assert !Spent(n);
      if n.clients != [] {
        HoldsValue(db.flat.live, p, n.clients, n.clients[0]);
        assert (p, n.clients[0].id) in db.flat.live;
      } else if n.sessions != [] {
        HoldsValue(db.flat.sess, p, n.sessions, n.sessions[0]);
        assert (p, n.sessions[0].id) in db.flat.sess;
      } else {
        var c := n.child[0];
        assert IsKid(db.nodes, p, c);
        ghost var below, here := (set q | q in db.nodes && c.path <= q), (set q | q in db.nodes && p <= q);
        assert below <= here && p in here && p !in below;
        MinimalNeeds(db, c.path);
        NeededUp(db.flat, p, c.path);
      }
    }
  }

  lemma NeededUp(flat: Flat, p: Path, q: Path)
    requires p <= q && q != [] && Needed(flat, q)
    ensures Needed(flat, p)
  {
    if k :| k in flat.live && q <= k.0 {
      assert p <= k.0;
    } else {
      var k :| k in flat.sess && q <= k.0;
      assert p <= k.0;
    }
  }

  /** A minimal tree has exactly the nodes that its filters need. */
  lemma MinimalKeys(db: DbTree, p: Path)
    requires db.Valid() && db.Minimal()
    ensures p in db.nodes <==> Needed(db.flat, p)
  {
    hide Linked;
    if p in db.nodes {
      MinimalNeeds(db, p);
    } else if Needed(db.flat, p) && p != [] {
      var q := NeededBy(db.flat, p);
      assert q[..|p|] == p;
      db.PrefixClosed(q, |p|);
    }
  }

  lemma NeededBy(flat: Flat, p: Path) returns (q: Path)
    requires Needed(flat, p) && p != []
    ensures p <= q && ((exists k :: k in flat.live && k.0 == q) || (exists k :: k in flat.sess && k.0 == q))
  {
    if k :| k in flat.live && p <= k.0 {
      q := k.0;
    } else {
      var k :| k in flat.sess && p <= k.0;
      q := k.0;
    }
  }

  twostate predicate SameNode(n: Node) reads n {
    SamePayload(n) && SameLinks(n)
  }

  /** The part of `Stores` that does not depend on the id windows. */
  ghost predicate Keeps(flat: Flat, n: Node) reads n`clients, n`sessions, n`retain {
    && Holds(flat.live, n.path, n.clients) && Descending(n.clients)
    && Holds(flat.sess, n.path, n.sessions) && Descending(n.sessions)
    && (n.retain != NULL <==> n.path in flat.retained)
    && (n.retain != NULL ==> flat.retained[n.path] == n.retain)
  }

  /** Equal contents mean equal vectors at a node. */
  twostate lemma SameStored(new flat: Flat, n: Node)
    requires Keeps(flat, n) && old(Keeps(flat, n))
    ensures SamePayload(n)
  {
    HoldsSame(flat.live, n.path, n.clients, old(n.clients));
    HoldsSame(flat.sess, n.path, n.sessions, old(n.sessions));
  }

  lemma HoldsSame(flat: map<(Path, Id), Ctxt>, p: Path, v: seq<Entry<Ctxt>>, w: seq<Entry<Ctxt>>)
    requires Holds(flat, p, v) && Holds(flat, p, w) && Descending(v) && Descending(w)
    ensures v == w
  {
    forall e ensures e in v <==> e in w { assert e == Entry(e.id, e.val); }
    SortedUnique(v, w);
  }

  /** What the tree holds, read before a change, so that it can be compared afterwards. */
  lemma Snapshot(db: DbTree)
    requires db.Valid() && db.Minimal()
    ensures forall p :: p in db.nodes <==> Needed(db.flat, p)
    ensures forall p :: p in db.nodes ==> Layout(db.nodes[p].child, db.nodes[p].plus, db.nodes[p].well)
    ensures forall p :: p in db.nodes ==> Keeps(db.flat, db.nodes[p])
    ensures forall p :: p in db.flat.retained ==> p in db.nodes
  {
    hide Layout;
    forall p ensures p in db.nodes <==> Needed(db.flat, p) { MinimalKeys(db, p); }
    forall p | p in db.nodes ensures Layout(db.nodes[p].child, db.nodes[p].plus, db.nodes[p].well) {
      assert Linked(db.nodes, db.nodes[p]);
    }
    forall p | p in db.nodes ensures Keeps(db.flat, db.nodes[p]) { assert db.Stores(db.flat, db.nodes[p]); }
  }

  /** A fresh subscription and its removal leave every node as it was, wildcard positions included. */
  method SubscribeUnsubscribe(db: DbTree, topic: string, ctxt: Ctxt, sid: Id, pid: Id)
    requires db.Valid() && db.Minimal() && InWindow(db.pipeLo, pid) && InWindow(db.sidLo, sid)
    requires (Split(topic), pid) !in db.flat.live
    modifies db`nodes, db`flat, db.nodes.Values
    ensures db.Valid() && db.flat == old(db.flat) && db.nodes == old(db.nodes)
    ensures forall p :: p in db.nodes ==> SameNode(db.nodes[p])
  {
    hide Linked, Kept, Layout, Needed, Keeps, DbTree.Valid, DbTree.Minimal, DbTree.Lands, DbTree.Tidy, DbTree.Stops;
    hide Split, Pulled, Restricted;
    Snapshot(db);
    var at := db.InsertClient(topic, ctxt, pid, 1);
    label Inserted:
    PathHeld(db, at, pid);
    var c := db.SearchAndDelete(topic, sid, pid, DeleteClient);
    Snapshot(db);
    PutThenPulled(old(db.flat), at, sid, pid, ctxt, db.nodes.Keys);
    NeedSame(old(db.flat), db.flat);
    assert db.nodes.Keys == old(db.nodes.Keys);
    forall p | p in db.nodes ensures SameNode(db.nodes[p]) {
      var n := db.nodes[p];
      assert n.child == old(n.child);
      LayoutUnique(n.child, n.plus, n.well, old(n.plus), old(n.well));
      SameStored(db.flat, n);
    }
  }

  /** Taking out a record that was just put in; messages are lost only with their nodes. */
  lemma PutThenPulled(flat: Flat, p: Path, sid: Id, pid: Id, ctxt: Ctxt, keys: set<Path>)
    requires (p, pid) !in flat.live
    ensures var back := Restricted(Pulled(flat.(live := flat.live[(p, pid) := ctxt]), p, sid, pid, DeleteClient), keys);
      && back.live == flat.live && back.sess == flat.sess && (flat.retained.Keys <= keys ==> back == flat)
  {
  }

  lemma PathHeld(db: DbTree, p: Path, pid: Id)
    requires db.Valid() && (p, pid) in db.flat.live
    ensures p in db.nodes
  {
  }

  lemma NeedSame(a: Flat, b: Flat)
    requires a.live == b.live && a.sess == b.sess
    ensures forall p :: Needed(a, p) <==> Needed(b, p)
  {
  }

  lemma TwoLevels()
    ensures Split("a") == ["a"] && Split("a/b") == ["a", "b"]
  {
    assert NextSlash("a", 1) == 1 && NextSlash("a", 0) == 1;
    assert NextSlash("a/b", 1) == 1 && NextSlash("a/b", 0) == 1;
    assert NextSlash("a/b", 3) == 3 && NextSlash("a/b", 2) == 3;
    assert "a"[0..] == "a" && "a/b"[0..1] == "a" && "a/b"[2..] == "b";
    assert SplitFrom("a/b", 2) == ["b"];
    assert SplitFrom("a/b", 0) == ["a"] + SplitFrom("a/b", 2);
  }

  /** A node whose path is the longest in the tree has no children. */
  lemma DeepestIsLeaf(db: DbTree, p: Path)
    requires db.Shape() && p in db.nodes && forall q :: q in db.nodes ==> |q| <= |p|
    ensures db.nodes[p].child == []
  {
    var n := db.nodes[p];
    assert Linked(db.nodes, n);
    assert n.child != [] ==> IsKid(db.nodes, p, n.child[0]);
  }

  /** A walk for `a/b` stops at a childless node for `a`. */
  lemma StopsBelow(db: DbTree)
    requires db.Valid() && ["a"] in db.nodes && forall q :: q in db.nodes ==> q <= ["a"]
    ensures db.StopsAt(["a", "b"], 1)
  {
    hide Linked, Layout, DbTree.Stores;
    var f := ["a", "b"];
    assert f[..1] == ["a"] && f[..0] == [];
    DeepestIsLeaf(db, ["a"]);
    db.InnerHasChild(f, 0);
    assert db.Passes(f[..0], f[0]);
  }

  /** A filter of one level is never cut short; `a/b` below a childless `a` lands one level too deep. */
  lemma WhereFiltersLand(db: DbTree)
    ensures !db.Stops(["a"])
    ensures forall at :: db.StopsAt(["a", "b"], 1) && db.Lands(["a", "b"], 0, at) ==> at == ["a", "a", "b"]
  {
    var f := ["a", "b"];
    assert f[..1] + f[0..] == ["a", "a", "b"];
  }

  /** As written, subscribing to `a` and then to `a/b` stores the second filter at `a/a/b`. */
  method MisplacedFilter() returns (db: DbTree)
    ensures fresh(db) && db.Valid()
    ensures (["a", "a", "b"], 2) in db.flat.live
    ensures forall p, id: Id :: (p, id) in db.flat.live ==> p == ["a"] || p == ["a", "a", "b"]
  {
    hide Linked, DbTree.Valid, Split, Kept, Layout, DbTree.Minimal, DbTree.Lands, DbTree.Stops, DbTree.StopsAt;
    TwoLevels();
    db := new DbTree(0, 0);
    WhereFiltersLand(db);
    ghost var at := db.InsertClient("a", 11, 1, 0);
    assert at == ["a"];
    PathHeld(db, at, 1);
    StopsBelow(db);
    WhereFiltersLand(db);
    at := db.InsertClient("a/b", 22, 2, 0);
  }

  /** Some client or session holds a record at `q`. */
  ghost predicate Loaded(flat: Flat, q: Path) {
    (exists k :: k in flat.live && k.0 == q) || (exists k :: k in flat.sess && k.0 == q)
  }

  /** Something at or below `p` keeps it in the tree when what is stored at `f` goes. */
  ghost predicate Anchored(keys: set<Path>, flat: Flat, f: Path, p: Path) {
    exists q :: q in keys && p <= q && (!(q <= f) || Loaded(flat, q))
  }

  lemma LoadedHere(db: DbTree, p: Path)
    requires db.Valid() && p in db.nodes
    ensures db.nodes[p].clients != [] || db.nodes[p].sessions != [] ==> Loaded(db.flat, p)
  {
    hide Linked;
    var n := db.nodes[p];
    assert db.Stores(db.flat, n);
    if n.clients != [] {
      assert Entry(n.clients[0].id, n.clients[0].val) in n.clients;
      assert (p, n.clients[0].id) in db.flat.live;
    }
    if n.sessions != [] {
      assert Entry(n.sessions[0].id, n.sessions[0].val) in n.sessions;
      assert (p, n.sessions[0].id) in db.flat.sess;
    }
  }

  lemma {:induction false} Anchor(db: DbTree, f: Path, j: nat) returns (q: Path)
    requires db.Valid() && 0 < j <= |f| && f[..j] in db.nodes && db.Tidy(f, 0, |f|)
    ensures q in db.nodes && f[..j] <= q && (!(q <= f) || Loaded(db.flat, q))
    decreases |f| - j
  {
    hide DbTree.Valid, Linked, Loaded;
    db.PathsOf();
    LoadedHere(db, f[..j]);
    var n := db.nodes[f[..j]];
    q := f[..j];
    if n.clients == [] && n.sessions == [] {
      db.ShapeOf();
      db.FirstKid(n);
      q := Kid(n.path, n.child[0].topic);
      if q <= f {
        assert q == f[..j + 1];
        q := Anchor(db, f, j + 1);
      }
    }
  }

  /** Exactly the anchored nodes outlive the pruning. */
  lemma AnchoredStay(db: DbTree, keys: set<Path>, f: Path, p: Path)
    requires db.Valid() && db.Tidy(f, 0, |f|) && db.nodes.Keys <= keys
    requires forall x :: x in keys && x !in db.nodes ==> x <= f
    requires p in keys && p != []
    ensures p in db.nodes <==> Anchored(keys, db.flat, f, p)
  {
    hide Linked, DbTree.Stores, DbTree.Tidy;
    if p in db.nodes {
      var q := p;
      if p <= f {
        assert p == f[..|p|];
        q := Anchor(db, f, |p|);
      }
      assert q in keys && p <= q && (!(q <= f) || Loaded(db.flat, q));
    } else {
      forall q | q in keys && p <= q ensures q <= f && !Loaded(db.flat, q) {
        assert q[..|p|] == p;
        Unrooted(db, q, |p|);
      }
    }
  }

  lemma Unrooted(db: DbTree, q: Path, k: nat)
    requires db.Valid() && k <= |q| && q[..k] !in db.nodes
    ensures q !in db.nodes && !Loaded(db.flat, q)
  {
    hide Linked, DbTree.Stores;
    if q in db.nodes { db.PrefixClosed(q, k); }
  }

  lemma AnchoredSame(keys: set<Path>, a: Flat, b: Flat, f: Path, p: Path)
    requires a.live == b.live && a.sess == b.sess
    ensures Anchored(keys, a, f, p) <==> Anchored(keys, b, f, p)
  {
    assert forall q :: Loaded(a, q) <==> Loaded(b, q);
  }
}
