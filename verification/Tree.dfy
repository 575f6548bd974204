/** The subscription tree (`mqtt_db.c`): walks that create, find and prune nodes in place. */
module Tree {
  import opened Strings
  import opened Topics
  import opened Vectors
  import opened Entries
  import opened Nodes

  /** `c` is the node that the tree holds at its own path, one level below `p`. */
  ghost predicate IsKid(nodes: map<Path, Node>, p: Path, c: Node) {
    c.path == Kid(p, c.topic) && c.path in nodes && nodes[c.path] == c
  }

  /** The child vector of `n` lists exactly the tree's nodes one level below it, in layout order. */
  ghost predicate Linked(nodes: map<Path, Node>, n: Node) reads n`child, n`plus, n`well {
    && Layout(n.child, n.plus, n.well)
    && (forall i :: 0 <= i < |n.child| ==> IsKid(nodes, n.path, n.child[i]))
    && (forall t {:trigger Kid(n.path, t)} :: Kid(n.path, t) in nodes ==> nodes[Kid(n.path, t)] in n.child)
  }

  /** A vector of records is the part of a flat map that belongs to one path. */
  ghost predicate Holds(flat: map<(Path, Id), Ctxt>, p: Path, v: seq<Entry<Ctxt>>) {
    forall id: Id, x :: Entry(id, x) in v <==> (p, id) in flat && flat[(p, id)] == x
  }

  lemma NothingHeld(p: Path)
    ensures Holds(map[], p, [])
  {
  }

  lemma HoldsId(flat: map<(Path, Id), Ctxt>, p: Path, v: seq<Entry<Ctxt>>, id: Id)
    requires Holds(flat, p, v)
    ensures HasId(v, id) <==> (p, id) in flat
  {
    if (p, id) in flat { assert Entry(id, flat[(p, id)]) in v; }
    if i :| 0 <= i < |v| && v[i].id == id { assert Entry(v[i].id, v[i].val) in v; }
  }

  lemma HoldsPut(flat: map<(Path, Id), Ctxt>, p: Path, v: seq<Entry<Ctxt>>, r: seq<Entry<Ctxt>>, e: Entry<Ctxt>)
    requires Holds(flat, p, v) && (p, e.id) !in flat && forall y :: y in r <==> y in v || y == e
    ensures Holds(flat[(p, e.id) := e.val], p, r)
  {
  }

  lemma HoldsDrop(flat: map<(Path, Id), Ctxt>, p: Path, v: seq<Entry<Ctxt>>, r: seq<Entry<Ctxt>>, id: Id)
    requires Holds(flat, p, v) && forall y :: y in r <==> y in v && y.id != id
    ensures Holds(flat - {(p, id)}, p, r)
  {
  }

  /** What the tree indexes: client and session contexts by filter and id, retained messages by topic. */
  datatype Flat = Flat(live: map<(Path, Id), Ctxt>, sess: map<(Path, Id), Ctxt>, retained: map<Path, Msg>)

  twostate predicate SamePayload(n: Node) reads n`clients, n`sessions, n`retain {
    n.clients == old(n.clients) && n.sessions == old(n.sessions) && n.retain == old(n.retain)
  }

  ghost predicate SameElsewhere(a: Flat, b: Flat, p: Path) {
    && (forall k: (Path, Id) :: k.0 != p ==> (k in a.live <==> k in b.live) && (k in a.live ==> a.live[k] == b.live[k]))
    && (forall k: (Path, Id) :: k.0 != p ==> (k in a.sess <==> k in b.sess) && (k in a.sess ==> a.sess[k] == b.sess[k]))
    && (forall q :: q != p ==>
          (q in a.retained <==> q in b.retained) && (q in a.retained ==> a.retained[q] == b.retained[q]))
  }

  class DbTree {
    var root: Node
    var queue: seq<Entry<seq<Msg>>>

    ghost var nodes: map<Path, Node>
    ghost var flat: Flat
    ghost const pipeLo: nat
    ghost const sidLo: nat

    /** The nodes form a tree: each sits at its own path, below its parent, linked both ways. */
    ghost predicate Shape() reads this, nodes.Values {
      && [] in nodes && nodes[[]] == root
      && (forall p {:trigger Parent(p)} :: p in nodes && p != [] ==> Parent(p) in nodes)
      && (forall p :: p in nodes ==> nodes[p].path == p && Linked(nodes, nodes[p]))
    }

    ghost predicate Stores(flat: Flat, n: Node) reads n`clients, n`sessions, n`retain {
      && SortedIn(pipeLo, n.clients) && Holds(flat.live, n.path, n.clients)
      && SortedIn(sidLo, n.sessions) && Holds(flat.sess, n.path, n.sessions)
      && (n.retain != NULL <==> n.path in flat.retained)
      && (n.retain != NULL ==> flat.retained[n.path] == n.retain)
    }

    ghost predicate Rooted(flat: Flat, nodes: map<Path, Node>) {
      && (forall k :: k in flat.live ==> k.0 in nodes)
      && (forall k :: k in flat.sess ==> k.0 in nodes)
      && (forall p :: p in flat.retained ==> p in nodes)
    }

    /** The vectors in the nodes are, path by path, the flat maps; nothing is stored elsewhere. */
    ghost predicate Valid() reads this, nodes.Values {
      && Shape()
      && Rooted(flat, nodes)
      && (forall p :: p in nodes ==> Stores(flat, nodes[p]))
      && SortedIn(sidLo, queue)
    }

    constructor (ghost pipeLo: nat, ghost sidLo: nat)
      ensures Valid() && fresh(nodes.Values)
      ensures flat == Flat(map[], map[], map[]) && queue == []
      ensures nodes.Keys == {[]} && Minimal()
      ensures this.pipeLo == pipeLo && this.sidLo == sidLo
    {
      hide StrCmp, Holds;
      var n := new Node("", []);
      root := n;
      queue := [];
      nodes, flat := map[[] := n], Flat(map[], map[], map[]);
      this.pipeLo, this.sidLo := pipeLo, sidLo;
      new;
      assert Linked(nodes, n) by { LinkedLeaf(map[], n); }
      NothingHeld(n.path);
    }

    /** Old nodes keep their place and their old children; new ones lie on the way to `at`. */
    twostate predicate Grown(new at: Path) reads this, nodes.Values {
      && (forall p :: p in old(nodes) ==> p in nodes && nodes[p] == old(nodes)[p])
      && (forall p :: p in old(nodes) ==> Kept(nodes[p].child, old(nodes).Keys) == old(nodes[p].child))
      && (forall p :: p in nodes && p !in old(nodes) ==> fresh(nodes[p]) && p <= at)
    }

    lemma KidIndex(n: Node, t: string)
      requires Shape() && n.path in nodes && nodes[n.path] == n
      ensures Kid(n.path, t) in nodes <==> exists i :: 0 <= i < |n.child| && n.child[i].topic == t
    {
      assert Linked(nodes, n);
      if Kid(n.path, t) in nodes {
        var c := nodes[Kid(n.path, t)];
        var i :| 0 <= i < |n.child| && n.child[i] == c;
        assert IsKid(nodes, n.path, n.child[i]);
        ParentOfKid(n.path, t);
        ParentOfKid(n.path, c.topic);
      }
      forall i | 0 <= i < |n.child| && n.child[i].topic == t ensures Kid(n.path, t) in nodes {
        assert IsKid(nodes, n.path, n.child[i]);
      }
    }

    /** `plus` and `well` name exactly the wildcard children. */
    lemma WildKids(n: Node)
      requires Shape() && n.path in nodes && nodes[n.path] == n
      ensures n.well == -1 ==> Kid(n.path, WELL) !in nodes
      ensures n.well != -1 ==>
        0 <= n.well < |n.child| && Kid(n.path, WELL) in nodes && n.child[n.well] == nodes[Kid(n.path, WELL)]
      ensures n.plus == -1 ==> Kid(n.path, PLUS) !in nodes
      ensures n.plus != -1 ==>
        0 <= n.plus < |n.child| && Kid(n.path, PLUS) in nodes && n.child[n.plus] == nodes[Kid(n.path, PLUS)]
    {
      hide StrCmp;
      assert Linked(nodes, n);
      KidIndex(n, WELL);
      KidIndex(n, PLUS);
      assert n.well != -1 ==> IsKid(nodes, n.path, n.child[n.well]);
      assert n.plus != -1 ==> IsKid(nodes, n.path, n.child[n.plus]);
    }

    /** When every child is a wildcard there is no named one. */
    lemma NamedKids(n: Node, t: string)
      requires Shape() && n.path in nodes && nodes[n.path] == n && !IsWild(t)
      ensures WildCount(n.plus, n.well) <= |n.child|
      ensures WildCount(n.plus, n.well) == |n.child| ==> Kid(n.path, t) !in nodes
    {
      hide StrCmp;
      assert Linked(nodes, n);
      KidIndex(n, t);
      assert forall i :: 0 <= i < WildCount(n.plus, n.well) ==> IsWild(n.child[i].topic);
    }

    /** `find_next`: searches the named children only. */
    method FindNext(n: Node, t: string) returns (found: bool, index: nat)
      requires Shape() && n.path in nodes && nodes[n.path] == n
      ensures found ==> index < |n.child| && n.child[index].topic == t && !IsWild(t)
      ensures found ==> Kid(n.path, t) in nodes && n.child[index] == nodes[Kid(n.path, t)]
      ensures !found ==> Kid(n.path, t) !in nodes || IsWild(t)
      ensures !found && WildCount(n.plus, n.well) < |n.child| ==> InsertionPoint(n, t, index)
    {
      hide Linked, Layout, StrCmp, IsWild;
      NamedFrom(n, t);
      NamesOrdered(n.child, n.plus, n.well, t);
      var l := WildCount(n.plus, n.well);
      found, index := BinarySearch(n.child, l, (c: Node) => StrCmp(c.topic, t));
      assert !found ==> forall i :: l <= i < |n.child| ==> StrCmp(n.child[i].topic, t) != 0;
    }

    /** A named child lies after the wildcards. */
    lemma NamedFrom(n: Node, t: string)
      requires Shape() && n.path in nodes && nodes[n.path] == n
      ensures Layout(n.child, n.plus, n.well)
      ensures forall i :: WildCount(n.plus, n.well) <= i < |n.child| && n.child[i].topic == t ==>
        Kid(n.path, t) in nodes && n.child[i] == nodes[Kid(n.path, t)] && !IsWild(t)
      ensures (forall i :: WildCount(n.plus, n.well) <= i < |n.child| ==> n.child[i].topic != t) ==>
        Kid(n.path, t) !in nodes || IsWild(t)
    {
      hide StrCmp;
      assert Linked(nodes, n);
      KidIndex(n, t);
      var l := WildCount(n.plus, n.well);
      forall i | l <= i < |n.child| && n.child[i].topic == t ensures n.child[i] == nodes[Kid(n.path, t)] {
        assert IsKid(nodes, n.path, n.child[i]);
      }
      assert forall i :: 0 <= i < l ==> IsWild(n.child[i].topic);
    }

    twostate lemma ShapeAttach(n: Node, new c: Node, new index: nat)
      requires old(Shape()) && n.path in old(nodes) && old(nodes)[n.path] == n
      requires c.path == Kid(n.path, c.topic) && c.path !in old(nodes)
      requires c.child == [] && c.plus == -1 && c.well == -1
      requires nodes == old(nodes)[c.path := c] && root == old(root)
      requires index <= |old(n.child)| && n.child == VecPlace(old(n.child), index, c) && Layout(n.child, n.plus, n.well)
      requires forall p :: p in old(nodes) && p != n.path ==> unchanged(old(nodes)[p])
      ensures Shape()
      ensures Kept(n.child, old(nodes).Keys) == old(n.child)
    {
      hide Layout, StrCmp, VecPlace, Kept, Kid;
      assert old(Linked(nodes, n));
      ParentOfKid(n.path, c.topic);
      KeptPlaced(old(n.child), index, c, old(nodes).Keys);
      forall p | p in nodes ensures nodes[p].path == p && Linked(nodes, nodes[p]) {
        if p == n.path {
          LinkedParent(old(nodes), old(n.child), n, c, index);
        } else if p == c.path {
          LinkedLeaf(old(nodes), c);
        } else {
          assert old(Linked(nodes, nodes[p]));
          LinkedOther(old(nodes), nodes[p], c);
        }
      }
    }

    twostate lemma StoresAttach(new c: Node)
      requires c.path !in old(nodes) && nodes == old(nodes)[c.path := c] && flat == old(flat)
      requires old(Rooted(flat, nodes))
      requires forall p :: p in old(nodes) ==> old(Stores(flat, nodes[p]))
      requires forall p :: p in old(nodes) ==> SamePayload(old(nodes)[p])
      requires c.Bare()
      ensures Rooted(flat, nodes) && forall p :: p in nodes ==> Stores(flat, nodes[p])
    {
    }

    /** Links the new node `c` below `n`, where the layout wants it. */
    method Attach(n: Node, c: Node, index: nat, plus: int, well: int)
      requires Valid() && n.path in nodes && nodes[n.path] == n
      requires c.path == Kid(n.path, c.topic) && c.path !in nodes
      requires c.Bare() && c.child == [] && c.plus == -1 && c.well == -1
      requires index <= |n.child| && Layout(VecPlace(n.child, index, c), plus, well)
      modifies this`nodes, n`child, n`plus, n`well
      ensures Valid()
      ensures nodes == old(nodes)[c.path := c]
      ensures Kept(n.child, old(nodes).Keys) == old(n.child)
    {
      hide Linked, Layout, VecPlace, Kept, Kid;
      n.child := VecPlace(n.child, index, c);
      n.plus, n.well := plus, well;
      nodes := nodes[c.path := c];
      ShapeAttach(n, c, index);
      StoresAttach(c);
    }

    /** One round of `dbtree_node_insert`: the child of `n` for one level, created if missing. */
    method Descend(n: Node, t: string) returns (c: Node)
      requires Valid() && n.path in nodes && nodes[n.path] == n
      modifies this`nodes, n`child, n`plus, n`well
      ensures Valid()
      ensures Kid(n.path, t) in nodes && c == nodes[Kid(n.path, t)] && c.path == Kid(n.path, t)
      ensures Kid(n.path, t) in old(nodes) ==> nodes == old(nodes)
      ensures Kid(n.path, t) !in old(nodes) ==>
        fresh(c) && c.Bare() && c.child == [] && nodes == old(nodes)[Kid(n.path, t) := c]
      ensures Kept(n.child, old(nodes).Keys) == old(n.child)
    {
      hide Kept, Stores, StrCmp, Layout;
      assert Linked(nodes, n);
      assert forall i :: 0 <= i < |n.child| ==> IsKid(nodes, n.path, n.child[i]);
      KeptAll(n.child, nodes.Keys);
      WildKids(n);
      if t == WELL {
        if n.well != -1 {
          c := n.child[n.well];
        } else {
          c := new Node(t, Kid(n.path, t));
          PlaceWild(n.child, n.plus, n.well, c);
          assert VecPlace(n.child, 0, c) == [c] + n.child;
          Attach(n, c, 0, if n.plus == 0 then 1 else n.plus, 0);
        }
      } else if t == PLUS {
        if n.plus != -1 {
          c := n.child[n.plus];
        } else {
          c := new Node(t, Kid(n.path, t));
          PlaceWild(n.child, n.plus, n.well, c);
          assert VecPlace(n.child, 0, c) == [c] + n.child;
          Attach(n, c, 0, 0, if n.well == 0 then 1 else n.well);
        }
      } else {
        c := DescendNamed(n, t);
      }
    }

    method DescendNamed(n: Node, t: string) returns (c: Node)
      requires Valid() && n.path in nodes && nodes[n.path] == n && !IsWild(t)
      modifies this`nodes, n`child, n`plus, n`well
      ensures Valid()
      ensures Kid(n.path, t) in nodes && c == nodes[Kid(n.path, t)] && c.path == Kid(n.path, t)
      ensures Kid(n.path, t) in old(nodes) ==> nodes == old(nodes)
      ensures Kid(n.path, t) !in old(nodes) ==>
        fresh(c) && c.Bare() && c.child == [] && nodes == old(nodes)[Kid(n.path, t) := c]
      ensures Kept(n.child, old(nodes).Keys) == old(n.child)
    {
      hide Kept, Stores, VecPlace, StrCmp, Layout;
      assert Linked(nodes, n);
      assert forall i :: 0 <= i < |n.child| ==> IsKid(nodes, n.path, n.child[i]);
      KeptAll(n.child, nodes.Keys);
      NamedKids(n, t);
      if WildCount(n.plus, n.well) == |n.child| {
        c := new Node(t, Kid(n.path, t));
        PlaceName(n.child, n.plus, n.well, |n.child|, c);
        Attach(n, c, |n.child|, n.plus, n.well);
      } else {
        var found, index := FindNext(n, t);
        if found {
          c := n.child[index];
        } else {
          c := new Node(t, Kid(n.path, t));
          PlaceName(n.child, n.plus, n.well, index, c);
          Attach(n, c, index, n.plus, n.well);
        }
      }
    }

    /** Nodes that remain keep their place and lose only pruned children; pruned ones lay on the way to `at`. */
    twostate predicate Shrunk(new at: Path) reads this, nodes.Values {
      && (forall p :: p in nodes ==> p in old(nodes) && nodes[p] == old(nodes)[p])
      && (forall p :: p in nodes ==> nodes[p].child == Kept(old(nodes[p].child), nodes.Keys))
      && (forall p :: p in old(nodes) && p !in nodes ==> p != [] && p <= at)
    }

    /** Every leaf but possibly `q` holds a client or a session. */
    ghost predicate MinimalBut(q: Path) reads this, nodes.Values {
      forall p :: p in nodes && p != [] && p != q ==> !Spent(nodes[p])
    }

    ghost predicate Minimal() reads this, nodes.Values { MinimalBut([]) }

    /** Nothing has moved yet. */
    twostate lemma GrownStart(new at: Path)
      requires Valid() && nodes == old(nodes) && forall p :: p in nodes ==> unchanged(nodes[p])
      ensures Grown(at)
    {
      hide Linked, Kept, Stores;
      KeptHere();
    }

    /** `dbtree_node_insert`: walks down one node per level from `first`, creating what is missing. */
    method NodeInsert(first: Node, f: Path, from: nat) returns (n: Node)
      requires Valid() && first.path in nodes && nodes[first.path] == first && from <= |f|
      modifies this`nodes, nodes.Values`child, nodes.Values`plus, nodes.Values`well
      ensures Valid() && Grown(first.path + f[from..])
      ensures n.path == first.path + f[from..] && n.path in nodes && nodes[n.path] == n
    {
      hide Valid, Kept;
      n := first;
      GrownStart(n.path);
      assert f[from..from] == [];
      for k := from to |f|
        invariant Valid() && n.path == first.path + f[from..k] && n.path in nodes && nodes[n.path] == n
        invariant Grown(n.path)
        invariant fresh(nodes.Values - old(nodes.Values))
      {
        label L:
        assert n.path + [f[k]] == first.path + f[from..k + 1];
        var c := Descend(n, f[k]);
        assert Grown(c.path) by {
          forall p | p in old(nodes)
            ensures p in nodes && nodes[p] == old(nodes)[p]
            ensures Kept(nodes[p].child, old(nodes).Keys) == old(nodes[p].child)
          {
            if nodes[p] == n { KeptKept(n.child, old(nodes).Keys, old@L(nodes).Keys); }
          }
          forall p | p in nodes && p !in old(nodes) ensures fresh(nodes[p]) && p <= c.path {
            if p != c.path { PrefixOfKid(p, n.path, f[k]); }
          }
        }
        n := c;
      }
      assert f[from..|f|] == f[from..];
    }

    /** The insertion walk takes level `t` below `p` for found: a first child, or a named one. */
    ghost predicate Passes(p: Path, t: string) reads this, nodes.Values {
      p in nodes && nodes[p].child != [] && (nodes[p].child[0].topic == t || !IsWild(t))
    }

    /** The insertion walk for `f` meets a childless node at level `k`, before the last one. */
    ghost predicate StopsAt(f: Path, k: nat) reads this, nodes.Values {
      && 1 <= k < |f| && f[..k] in nodes && nodes[f[..k]].child == []
      && forall j :: 0 <= j < k ==> Passes(f[..j], f[j])
    }

    ghost predicate Stops(f: Path) reads this, nodes.Values { exists k: nat :: StopsAt(f, k) }

    /** Where an insertion for `f` ends up when it resumes `restart` levels after the last match. */
    ghost predicate Lands(f: Path, restart: nat, at: Path) reads this, nodes.Values
      requires restart <= 1
    {
      && (forall k: nat :: StopsAt(f, k) ==> at == f[..k] + f[k - 1 + restart..])
      && (!Stops(f) ==> at == f)
    }

    /** Exactly when a filter is stored at its own path. */
    lemma LandsInPlaceIff(f: Path, restart: nat, at: Path)
      requires restart <= 1 && Lands(f, restart, at)
      ensures at == f <==> restart == 1 || !Stops(f)
    {
      if k: nat :| StopsAt(f, k) {
        assert at == f[..k] + f[k - 1 + restart..];
        assert restart == 1 ==> at == f;
      }
    }

    lemma {:induction false} PrefixClosed(p: Path, k: nat)
      requires Shape() && p in nodes && k <= |p|
      ensures p[..k] in nodes
      decreases |p|
    {
      if k < |p| {
        assert Parent(p) in nodes;
        PrefixClosed(Parent(p), k);
        assert Parent(p)[..k] == p[..k];
      } else {
        assert p[..k] == p;
      }
    }

    lemma InnerHasChild(f: Path, k: nat)
      requires Shape() && k < |f| && f[..k + 1] in nodes
      ensures f[..k] in nodes && nodes[f[..k]].child != []
    {
      PrefixStep(f, k);
      assert Parent(f[..k + 1]) in nodes;
      assert Linked(nodes, nodes[f[..k]]);
    }

    /** A walk that fails at level `k`, having passed the levels before, stops at no childless node. */
    lemma NoStop(f: Path, k: nat)
      requires Shape() && k < |f| && Passed(f, k)
      requires !Passes(f[..k], f[k]) || f[..k + 1] !in nodes
      ensures !Stops(f)
    {
      PassedAbove(f, k);
    }

    lemma PassedAbove(f: Path, k: nat)
      requires Shape() && k < |f|
      ensures forall j: nat :: StopsAt(f, j) && k < j ==> Passes(f[..k], f[k]) && f[..k + 1] in nodes
    {
      forall j: nat | StopsAt(f, j) && k < j ensures f[..k + 1] in nodes {
        assert f[..j][..k + 1] == f[..k + 1];
        PrefixClosed(f[..j], k + 1);
      }
    }

    /** The walk stops at level `k` and at no other. */
    lemma OneStop(f: Path, k: nat, restart: nat)
      requires StopsAt(f, k) && restart <= 1
      ensures Lands(f, restart, f[..k] + f[k - 1 + restart..])
    {
      forall j: nat | StopsAt(f, j) ensures j == k {
        assert !Passes(f[..k], f[k]) && !Passes(f[..j], f[j]);
      }
    }

    /** The walk for `f` has got past the nodes above level `k` and is at a node with children. */
    ghost predicate Passed(f: Path, k: nat) reads this, nodes.Values {
      && k <= |f|
      && (forall j :: 0 <= j < k ==> Passes(f[..j], f[j]))
      && (forall j :: 0 <= j <= k ==> f[..j] in nodes && nodes[f[..j]].child != [])
    }

    lemma PassedMore(f: Path, k: nat)
      requires k < |f| && Passed(f, k) && Passes(f[..k], f[k])
      ensures f[..k + 1] in nodes && nodes[f[..k + 1]].child != [] ==> Passed(f, k + 1)
    {
    }

    /** One round of the walk: the first child if its topic is `t`, else a named child. */
    method StepDown(n: Node, t: string) returns (found: bool, next: Node, index: nat)
      requires Valid() && n.path in nodes && nodes[n.path] == n && n.child != []
      ensures found ==> Kid(n.path, t) in nodes && next == nodes[Kid(n.path, t)] && Passes(n.path, t)
      ensures found ==> index < |n.child| && n.child[index] == next
      ensures !found ==> !Passes(n.path, t) || Kid(n.path, t) !in nodes
    {
      hide Linked, Stores, InsertionPoint, Kid;
      next, index := n.child[0], 0;
      found := true;
      if next.topic != t {
        found, index := FindNext(n, t);
        if found { next := n.child[index]; }
      } else {
        FirstKid(n);
      }
    }

    /** The search of `search_insert_node`: where to insert from, and which levels remain. */
    method Walk(f: Path, restart: nat) returns (n: Node, from: nat)
      requires Valid() && f != [] && restart <= 1
      ensures n.path in nodes && nodes[n.path] == n && from <= |f|
      ensures Lands(f, restart, n.path + f[from..])
    {
      hide Valid, Shape, Passed, Passes, Lands, Kid, Stops, Parent;
      PathsOf();
      ShapeOf();
      n, from := root, 0;
      RootPath();
      if n.child == [] {
        StartsBare(f, restart);
        Rejoined(f, 0);
        return;
      }
      var k := 0;
      PassedNone(f);
      while true
        invariant k < |f| && n.path == f[..k] && n.path in nodes && nodes[n.path] == n && n.child != []
        invariant Passed(f, k)
        decreases |f| - k
      {
        Rejoined(f, k);
        Rejoined(f, k + 1);
        KidPrefix(f, k);
        var found, next, index := StepDown(n, f[k]);
        if !found {
          NoStop(f, k);
          LandsDirectly(f, restart);
          from := k;
          return;
        }
        PassedMore(f, k);
        if next.child != [] && k + 1 < |f| {
          k := k + 1;
          n := next;
        } else if k + 1 == |f| {
          WholePath(f, restart);
          n, from := next, |f|;
          return;
        } else {
          StopsHere(f, k + 1, restart);
          n, from := next, k + restart;
          return;
        }
      }
    }

    lemma Rejoined(f: Path, k: nat)
      requires k <= |f|
      ensures f[..k] + f[k..] == f && (k == 0 ==> f[..k] == []) && (k == |f| ==> f[..k] == f)
    {
    }

    lemma KidPrefix(f: Path, k: nat)
      requires k < |f|
      ensures Kid(f[..k], f[k]) == f[..k + 1]
    {
    }

    lemma RootPath()
      requires Shape()
      ensures root.path == [] && [] in nodes && nodes[[]] == root
    {
    }

    lemma PassedNone(f: Path)
      requires Shape() && root.child != []
      ensures Passed(f, 0)
    {
      assert f[..0] == [];
    }

    lemma StartsBare(f: Path, restart: nat)
      requires Shape() && f != [] && root.child == [] && restart <= 1
      ensures Lands(f, restart, f)
    {
      forall k: nat ensures !StopsAt(f, k) {
        assert f[..0] == [];
        assert StopsAt(f, k) ==> Passes(f[..0], f[0]);
      }
    }

    lemma LandsDirectly(f: Path, restart: nat)
      requires !Stops(f) && restart <= 1
      ensures Lands(f, restart, f)
    {
      forall k: nat ensures !StopsAt(f, k) {}
    }

    lemma WholePath(f: Path, restart: nat)
      requires restart <= 1 && f != [] && Passed(f, |f| - 1)
      ensures Lands(f, restart, f)
    {
      forall k: nat ensures !StopsAt(f, k) {}
    }

    lemma StopsHere(f: Path, k: nat, restart: nat)
      requires restart <= 1 && 1 <= k < |f| && f[..k] in nodes && nodes[f[..k]].child == []
      requires Passed(f, k - 1) && Passes(f[..k - 1], f[k - 1])
      ensures Lands(f, restart, f[..k] + f[k - 1 + restart..])
    {
      OneStop(f, k, restart);
    }

    lemma FirstKid(n: Node)
      requires Shape() && n.path in nodes && nodes[n.path] == n && n.child != []
      ensures Kid(n.path, n.child[0].topic) in nodes && nodes[Kid(n.path, n.child[0].topic)] == n.child[0]
    {
      assert Linked(nodes, n);
      assert IsKid(nodes, n.path, n.child[0]);
    }

    /**
     * The node that `search_insert_node` hands to its inserter. With `restart == 1` it is the node of
     * the filter. As written (`restart == 0`) a walk that stops at a childless node inserts the level
     * it has just matched once more, so the filter is stored one level too deep.
     */
    method Locate(f: Path, restart: nat) returns (n: Node, ghost at: Path)
      requires Valid() && f != [] && restart <= 1
      modifies this`nodes, nodes.Values`child, nodes.Values`plus, nodes.Values`well
      ensures Valid() && at in nodes && nodes[at] == n && Grown(at)
      ensures old(Lands(f, restart, at))
      ensures at == f <==> restart == 1 || !old(Stops(f))
    {
      hide Linked, Stores, Lands, Stops, Kept;
      var from;
      n, from := Walk(f, restart);
      at := n.path + f[from..];
      LandsInPlaceIff(f, restart, at);
      n := NodeInsert(n, f, from);
    }

    twostate lemma StoresUpdate(n: Node)
      requires old(Valid()) && nodes == old(nodes) && root == old(root) && queue == old(queue)
      requires n.path in nodes && nodes[n.path] == n
      requires forall p :: p in nodes ==> SameLinks(nodes[p]) && (p != n.path ==> SamePayload(nodes[p]))
      requires Stores(flat, n) && SameElsewhere(old(flat), flat, n.path)
      ensures Valid()
    {
      hide Layout, SortedIn;
      forall p | p in nodes ensures Stores(flat, nodes[p]) {
        if p != n.path {
          assert old(Stores(flat, nodes[p]));
          HoldsElsewhere(old(flat).live, flat.live, p, nodes[p].clients);
          HoldsElsewhere(old(flat).sess, flat.sess, p, nodes[p].sessions);
        }
      }
      forall p | p in nodes ensures nodes[p].path == p && Linked(nodes, nodes[p]) {
        assert old(Linked(nodes, nodes[p]));
      }
    }

    lemma StoresAt(n: Node)
      requires Valid() && n.path in nodes && nodes[n.path] == n
      ensures Stores(flat, n) && forall p :: p in nodes ==> nodes[p].path == p
    {
    }

    /** `insert_dbtree_client`. */
    method PutClient(n: Node, e: Entry<Ctxt>)
      requires Valid() && n.path in nodes && nodes[n.path] == n && InWindow(pipeLo, e.id)
      modifies this`flat, n`clients
      ensures Valid()
      ensures flat == if (n.path, e.id) in old(flat).live then old(flat)
                      else old(flat).(live := old(flat).live[(n.path, e.id) := e.val])
      ensures n.clients != []
    {
      hide Valid, Linked, Layout, SortedIn, Holds;
      StoresAt(n);
      HoldsId(flat.live, n.path, n.clients, e.id);
      var r := InsertEntry(pipeLo, n.clients, e);
      if (n.path, e.id) !in flat.live {
        HoldsPut(flat.live, n.path, n.clients, r, e);
        flat := flat.(live := flat.live[(n.path, e.id) := e.val]);
      }
      n.clients := r;
      StoresUpdate(n);
    }

    /** `delete_dbtree_client`: the context of the client removed, or NULL. */
    method TakeClient(n: Node, pid: Id) returns (ctxt: Ctxt)
      requires Valid() && n.path in nodes && nodes[n.path] == n && InWindow(pipeLo, pid)
      modifies this`flat, n`clients
      ensures Valid()
      ensures flat == old(flat).(live := old(flat).live - {(n.path, pid)})
      ensures ctxt == if (n.path, pid) in old(flat).live then old(flat).live[(n.path, pid)] else NULL
    {
      hide Valid, Linked, Layout, SortedIn, Holds;
      StoresAt(n);
      HoldsId(flat.live, n.path, n.clients, pid);
      var e, r := EraseEntry(pipeLo, n.clients, pid);
      ctxt := NULL;
      if e.Some? {
        HoldsValue(flat.live, n.path, n.clients, e.value);
        HoldsDrop(flat.live, n.path, n.clients, r, pid);
        ctxt := e.value.val;
        n.clients := r;
      }
      flat := flat.(live := flat.live - {(n.path, pid)});
      assert e.None? ==> flat == old(flat);
      StoresUpdate(n);
    }

    /** `insert_session_vector`. */
    method PutSession(n: Node, e: Entry<Ctxt>)
      requires Valid() && n.path in nodes && nodes[n.path] == n && InWindow(sidLo, e.id)
      modifies this`flat, n`sessions
      ensures Valid()
      ensures flat == if (n.path, e.id) in old(flat).sess then old(flat)
                      else old(flat).(sess := old(flat).sess[(n.path, e.id) := e.val])
      ensures n.sessions != []
    {
      hide Valid, Linked, Layout, SortedIn, Holds;
      StoresAt(n);
      HoldsId(flat.sess, n.path, n.sessions, e.id);
      var r := InsertEntry(sidLo, n.sessions, e);
      if (n.path, e.id) !in flat.sess {
        HoldsPut(flat.sess, n.path, n.sessions, r, e);
        flat := flat.(sess := flat.sess[(n.path, e.id) := e.val]);
      }
      n.sessions := r;
      StoresUpdate(n);
    }

    /** `delete_from_session_vector`: the context of the session removed, or NULL. */
    method TakeSession(n: Node, sid: Id) returns (found: bool, ctxt: Ctxt)
      requires Valid() && n.path in nodes && nodes[n.path] == n && InWindow(sidLo, sid)
      modifies this`flat, n`sessions
      ensures Valid()
      ensures flat == old(flat).(sess := old(flat).sess - {(n.path, sid)})
      ensures found <==> (n.path, sid) in old(flat).sess
      ensures ctxt == if found then old(flat).sess[(n.path, sid)] else NULL
    {
      hide Valid, Linked, Layout, SortedIn, Holds;
      StoresAt(n);
      HoldsId(flat.sess, n.path, n.sessions, sid);
      var e, r := EraseEntry(sidLo, n.sessions, sid);
      found, ctxt := e.Some?, NULL;
      if e.Some? {
        HoldsValue(flat.sess, n.path, n.sessions, e.value);
        HoldsDrop(flat.sess, n.path, n.sessions, r, sid);
        ctxt := e.value.val;
        n.sessions := r;
      }
      flat := flat.(sess := flat.sess - {(n.path, sid)});
      assert e.None? ==> flat == old(flat);
      StoresUpdate(n);
    }

    /** `delete_and_insert`: turns a session back into a client; without one, nothing happens. */
    method Revive(n: Node, sid: Id, pid: Id) returns (ctxt: Ctxt)
      requires Valid() && n.path in nodes && nodes[n.path] == n && InWindow(sidLo, sid) && InWindow(pipeLo, pid)
      modifies this`flat, n`clients, n`sessions
      ensures Valid()
      ensures ctxt == if (n.path, sid) in old(flat).sess then old(flat).sess[(n.path, sid)] else NULL
      ensures flat == Revived(old(flat), n.path, sid, pid)
    {
      hide Linked, Layout, SortedIn, Holds, Stores;
      var found;
      found, ctxt := TakeSession(n, sid);
      if found {
        PutClient(n, Entry(pid, ctxt));
      } else {
        assert flat == old(flat);
      }
    }

    /** `insert_dbtree_retain`. */
    method PutRetain(n: Node, m: Msg) returns (was: Msg)
      requires Valid() && n.path in nodes && nodes[n.path] == n && m != NULL
      modifies this`flat, n`retain
      ensures Valid()
      ensures flat == old(flat).(retained := old(flat).retained[n.path := m])
      ensures was == old(n.retain)
    {
      hide Valid, Linked, Layout, SortedIn, Holds;
      StoresAt(n);
      was := n.retain;
      n.retain := m;
      flat := flat.(retained := flat.retained[n.path := m]);
      StoresUpdate(n);
    }

    /** `delete_dbtree_retain`. */
    method TakeRetain(n: Node) returns (was: Msg)
      requires Valid() && n.path in nodes && nodes[n.path] == n
      modifies this`flat, n`retain
      ensures Valid()
      ensures flat == old(flat).(retained := old(flat).retained - {n.path})
      ensures was == if n.path in old(flat).retained then old(flat).retained[n.path] else NULL
    {
      hide Valid, Linked, Layout, SortedIn, Holds;
      StoresAt(n);
      was := n.retain;
      n.retain := NULL;
      flat := flat.(retained := flat.retained - {n.path});
      StoresUpdate(n);
    }

    twostate lemma ShapeDetach(n: Node, new c: Node, new index: nat)
      requires old(Shape()) && n.path in old(nodes) && old(nodes)[n.path] == n
      requires index < |old(n.child)| && c == old(n.child)[index] && old(c.child) == []
      requires nodes == old(nodes) - {c.path} && root == old(root)
      requires n.child == VecErase(old(n.child), index) && Layout(n.child, n.plus, n.well)
      requires forall p :: p in old(nodes) && p != n.path ==> SameLinks(old(nodes)[p])
      ensures Shape() && n.path in nodes
    {
      hide Layout, StrCmp, Kid, VecErase;
      assert old(Linked(nodes, n));
      assert IsKid(old(nodes), n.path, c);
      ParentOfKid(n.path, c.topic);
      assert old(Linked(nodes, c));
      forall p | p in nodes ensures nodes[p].path == p && Linked(nodes, nodes[p]) {
        assert old(Linked(nodes, nodes[p]));
        if p == n.path {
          LinkedParentDrop(old(nodes), old(n.child), n, index, old(n.plus), old(n.well));
        } else {
          LinkedOtherDrop(old(nodes), nodes[p], c.path);
        }
      }
      forall p | p in nodes && p != [] ensures Parent(p) in nodes {
        KidOfParent(p);
        assert Parent(p) in old(nodes);
        assert Parent(p) in old(nodes) && Kid(Parent(p), Last(p)) in old(nodes);
      }
    }

    twostate lemma StoresDetach(c: Node)
      requires old(Rooted(flat, nodes)) && (forall p :: p in old(nodes) ==> old(Stores(flat, nodes[p])))
      requires forall p :: p in old(nodes) ==> old(nodes)[p].path == p
      requires c.path in old(nodes) && old(nodes)[c.path] == c && c.clients == [] && c.sessions == []
      requires nodes == old(nodes) - {c.path} && flat == old(flat).(retained := old(flat).retained - {c.path})
      requires forall p :: p in old(nodes) ==> SamePayload(old(nodes)[p])
      ensures Rooted(flat, nodes) && forall p :: p in nodes ==> Stores(flat, nodes[p])
    {
      hide SortedIn;
      assert old(Stores(flat, c));
      forall k | k in flat.live ensures k.0 != c.path {
        if k.0 == c.path { HoldsId(flat.live, c.path, c.clients, k.1); }
      }
      forall k | k in flat.sess ensures k.0 != c.path {
        if k.0 == c.path { HoldsId(flat.sess, c.path, c.sessions, k.1); }
      }
      forall p | p in nodes ensures Stores(flat, nodes[p]) {
        assert old(Stores(flat, nodes[p]));
      }
    }

    /** `delete_dbtree_node`: drops child `index` if it holds no child, client or session (retained or not). */
    method DeleteNode(n: Node, index: nat)
      requires Valid() && n.path in nodes && nodes[n.path] == n && index < |n.child|
      modifies this`nodes, this`flat, n`child, n`plus, n`well
      ensures Valid() && n.path in nodes
      ensures nodes == if old(Spent(n.child[index])) then old(nodes) - {old(n.child[index]).path} else old(nodes)
      ensures flat == Restricted(old(flat), nodes.Keys)
      ensures Shrunk(Kid(n.path, old(n.child[index]).topic))
      ensures old(MinimalBut(n.child[index].path)) ==> MinimalBut(n.path)
    {
      hide Linked, Layout, Stores, Kid, StrCmp, Kept, Restricted;
      var c := n.child[index];
      LinksOf(n, index);
      KeptHere();
      RestrictedLess(flat, nodes.Keys, c.path);
      if c.child == [] && c.clients == [] && c.sessions == [] {
        Detach(n, c, index);
      }
    }

    /** Takes a spent child out of the tree. */
    method Detach(n: Node, c: Node, index: nat)
      requires Valid() && n.path in nodes && nodes[n.path] == n && index < |n.child| && n.child[index] == c && Spent(c)
      modifies this`nodes, this`flat, n`child, n`plus, n`well
      ensures Valid() && n.path in nodes && nodes == old(nodes) - {c.path} && Shrunk(c.path)
      ensures flat == old(flat).(retained := old(flat).retained - {c.path})
    {
      hide Linked, Layout, VecErase, Stores, Kid, StrCmp, Kept;
      LinksOf(n, index);
      EraseLayout(n.child, n.plus, n.well, index);
      n.child := VecErase(n.child, index);
      n.plus, n.well := Shifted(n.plus, index), Shifted(n.well, index);
      nodes := nodes - {c.path};
      flat := flat.(retained := flat.retained - {c.path});
      ShapeDetach(n, c, index);
      StoresDetach(c);
      KeptDetached(n, index);
    }

    /** Every node's children are all in the tree. */
    lemma KeptHere()
      requires Shape()
      ensures forall p :: p in nodes ==> Kept(nodes[p].child, nodes.Keys) == nodes[p].child
    {
      hide StrCmp, Layout, Kept;
      forall p | p in nodes ensures Kept(nodes[p].child, nodes.Keys) == nodes[p].child {
        assert Linked(nodes, nodes[p]);
        assert forall i :: 0 <= i < |nodes[p].child| ==> IsKid(nodes, p, nodes[p].child[i]);
        KeptAll(nodes[p].child, nodes.Keys);
      }
    }

    twostate lemma KeptDetached(n: Node, new index: nat)
      requires old(Shape()) && Shape() && n.path in old(nodes) && old(nodes)[n.path] == n
      requires index < |old(n.child)| && n.child == VecErase(old(n.child), index)
      requires nodes == old(nodes) - {old(n.child)[index].path}
      requires forall p :: p in nodes && p != n.path ==> SameLinks(nodes[p])
      ensures Shrunk(old(n.child)[index].path)
    {
      hide StrCmp, Layout, Kept;
      var c := old(n.child)[index];
      assert old(Linked(nodes, n));
      assert IsKid(old(nodes), n.path, c);
      KeptHere();
      assert n.path in nodes && Linked(nodes, n) by { ParentOfKid(n.path, c.topic); }
      forall j | 0 <= j < |old(n.child)| && j != index ensures old(n.child)[j].path in nodes {
        var i := if j < index then j else j - 1;
        assert n.child[i] == old(n.child)[j] && IsKid(nodes, n.path, n.child[i]);
      }
      KeptErased(old(n.child), index, nodes.Keys);
    }

    /** The indices recorded on the way down: entry `i` leads from level `i` of `f` to level `i + 1`. */
    ghost predicate Trail(f: Path, buf: seq<Node>, vec: seq<nat>) reads this, nodes.Values {
      && |buf| == |vec| <= |f|
      && (forall i :: 0 <= i <= |buf| ==> f[..i] in nodes)
      && (forall i :: 0 <= i < |buf| ==>
            buf[i] == nodes[f[..i]] && vec[i] < |buf[i].child| && buf[i].child[vec[i]] == nodes[f[..i + 1]])
    }

    /** The search of `search_and_delete`: the child of `n` for one level, wildcards by their positions. */
    method FindKid(n: Node, t: string) returns (found: bool, index: nat)
      requires Valid() && n.path in nodes && nodes[n.path] == n && n.child != []
      ensures found <==> Kid(n.path, t) in nodes
      ensures found ==> index < |n.child| && n.child[index] == nodes[Kid(n.path, t)]
    {
      hide Linked, Layout, Stores, Kid, InsertionPoint;
      found, index := true, 0;
      if n.child[0].topic != t {
        WildKids(n);
        found := false;
        if t == WELL && n.well != -1 { found, index := true, n.well; }
        if t == PLUS && n.plus != -1 { found, index := true, n.plus; }
        if !found {
          found, index := FindNext(n, t);
        }
      } else {
        FirstKid(n);
      }
    }

    /** The path down to the parent of the last level, or failure when the filter has no node. */
    method FindTrail(f: Path) returns (found: bool, buf: seq<Node>, vec: seq<nat>)
      requires Valid() && f != []
      ensures found <==> f in nodes
      ensures found ==> |buf| == |f| && Trail(f, buf, vec)
    {
      hide Valid, Shape, Linked, Trail, Kid;
      ShapeOf();
      PathsOf();
      RootPath();
      var n := root;
      buf, vec := [], [];
      TrailNone(f);
      while n.child != []
        invariant |buf| < |f| && Trail(f, buf, vec) && f[..|buf|] in nodes && n == nodes[f[..|buf|]]
        decreases |f| - |buf|
      {
        var k := |buf|;
        KidPrefix(f, k);
        var ok, index := FindKid(n, f[k]);
        if !ok {
          PrefixMissing(f, k + 1);
          return false, buf, vec;
        }
        var next := n.child[index];
        TrailMore(f, buf, vec, n, index);
        buf, vec := buf + [n], vec + [index];
        if |buf| == |f| {
          Rejoined(f, |f|);
          return true, buf, vec;
        }
        n := next;
      }
      LeafMissing(f, |buf|);
      return false, buf, vec;
    }

    /** Every level of `f` is found by a walk that looks at the first child and at named ones only. */
    ghost predicate Straight(f: Path) reads this, nodes.Values {
      f in nodes && forall j :: 0 <= j < |f| ==> Passes(f[..j], f[j])
    }

    /** Without wildcards that is every path of the tree. */
    lemma StraightIff(f: Path)
      requires Valid() && WildcardFree(f)
      ensures Straight(f) <==> f in nodes
    {
      hide Linked;
      ShapeOf();
      if f in nodes {
        forall j | 0 <= j < |f| ensures Passes(f[..j], f[j]) {
          PrefixClosed(f, j + 1);
          InnerHasChild(f, j);
        }
      }
    }

    /** The way down of `dbtree_delete_retain`, which does not look for wildcards by position. */
    method FindStraight(f: Path) returns (found: bool, buf: seq<Node>, vec: seq<nat>)
      requires Valid() && f != []
      ensures found <==> Straight(f)
      ensures found ==> |buf| == |f| && Trail(f, buf, vec)
    {
      hide Valid, Shape, Linked, Trail, Kid, Passes;
      ShapeOf();
      PathsOf();
      RootPath();
      var n := root;
      buf, vec := [], [];
      TrailNone(f);
      while n.child != []
        invariant |buf| < |f| && Trail(f, buf, vec) && f[..|buf|] in nodes && n == nodes[f[..|buf|]]
        invariant forall j :: 0 <= j < |buf| ==> Passes(f[..j], f[j])
        decreases |f| - |buf|
      {
        var k := |buf|;
        KidPrefix(f, k);
        var ok, next, index := StepDown(n, f[k]);
        if !ok {
          if f[..k + 1] !in nodes { PrefixMissing(f, k + 1); }
          return false, buf, vec;
        }
        TrailMore(f, buf, vec, n, index);
        buf, vec := buf + [n], vec + [index];
        if |buf| == |f| {
          Rejoined(f, |f|);
          return true, buf, vec;
        }
        n := next;
      }
      LeafMissing(f, |buf|);
      return false, buf, vec;
    }

    lemma TrailNone(f: Path)
      requires Shape()
      ensures Trail(f, [], []) && f[..0] == []
    {
      assert f[..0] == [];
    }

    lemma TrailMore(f: Path, buf: seq<Node>, vec: seq<nat>, n: Node, index: nat)
      requires |buf| < |f| && Trail(f, buf, vec) && f[..|buf|] in nodes && n == nodes[f[..|buf|]]
      requires index < |n.child| && f[..|buf| + 1] in nodes && n.child[index] == nodes[f[..|buf| + 1]]
      ensures Trail(f, buf + [n], vec + [index])
    {
    }

    lemma PrefixMissing(f: Path, k: nat)
      requires Shape() && k <= |f| && f[..k] !in nodes
      ensures f !in nodes
    {
      if f in nodes { PrefixClosed(f, k); }
    }

    lemma LeafMissing(f: Path, k: nat)
      requires Shape() && k < |f| && f[..k] in nodes && nodes[f[..k]].child == []
      ensures f !in nodes
    {
      if f in nodes {
        PrefixClosed(f, k + 1);
        InnerHasChild(f, k);
      }
    }

    twostate lemma TrailShort(new f: Path, buf: seq<Node>, new vec: seq<nat>)
      requires buf != [] && old(Trail(f, buf, vec)) && forall p :: p in old(nodes) ==> old(nodes)[p].path == p
      requires nodes == old(nodes) || nodes == old(nodes) - {f[..|buf|]}
      requires forall p :: p in old(nodes) && p != f[..|buf| - 1] ==> SameLinks(old(nodes)[p])
      ensures Trail(f, buf[..|buf| - 1], vec[..|vec| - 1])
    {
      forall i {:trigger buf[i]} | 0 <= i < |buf| - 1
        ensures f[..i] in nodes && SameLinks(buf[i]) && buf[i] == nodes[f[..i]] &&
          nodes[f[..i + 1]] == old(nodes)[f[..i + 1]]
      {
        assert |f[..i]| == i;
      }
    }

    /** One round of the pruning loop: the last entry of the trail. */
    method PruneStep(f: Path, buf: seq<Node>, vec: seq<nat>, n: Node)
      requires Valid() && buf != [] && Trail(f, buf, vec) && n == buf[|buf| - 1]
      modifies this`nodes, this`flat, n`child, n`plus, n`well
      ensures Valid() && Trail(f, buf[..|buf| - 1], vec[..|vec| - 1])
      ensures Shrunk(f[..|buf|])
      ensures flat == Restricted(old(flat), nodes.Keys)
      ensures old(MinimalBut(f[..|buf|])) ==> MinimalBut(f[..|buf| - 1])
      ensures nodes == old(nodes) || (old(nodes[f[..|buf|]].child) == [] && nodes == old(nodes) - {f[..|buf|]})
      ensures f[..|buf|] in nodes ==> !Spent(nodes[f[..|buf|]])
    {
      hide Valid, Kept, Linked, Restricted;
      var k := |buf| - 1;
      PathsOf();
      PrefixStep(f, k);
      DeleteNode(n, vec[k]);
      TrailShort(f, buf, vec);
    }

    /** The nodes of `f` below level `k`, down to level `m`, are gone or hold something. */
    ghost predicate Tidy(f: Path, k: nat, m: nat) reads this, nodes.Values {
      k <= m <= |f| && forall j :: k < j <= m && f[..j] in nodes ==> !Spent(nodes[f[..j]])
    }

    twostate lemma TidyStep(new f: Path, new k: nat, new m: nat)
      requires k < m <= |f| && old(Tidy(f, k + 1, m)) && f[..k + 1] in old(nodes)
      requires nodes == old(nodes) || (old(nodes[f[..k + 1]].child) == [] && nodes == old(nodes) - {f[..k + 1]})
      requires old(nodes[f[..k + 1]].child) == [] ==> forall j :: k + 1 < j <= m ==> f[..j] !in old(nodes)
      requires f[..k + 1] in nodes ==> !Spent(nodes[f[..k + 1]])
      requires forall p :: p in old(nodes) && p != f[..k] ==> unchanged(old(nodes)[p])
      ensures Tidy(f, k, m)
    {
      forall j | k < j <= m && f[..j] in nodes ensures !Spent(nodes[f[..j]]) {
        if j > k + 1 {
          assert |f[..j]| != |f[..k]| && !old(Spent(nodes[f[..j]]));
        }
      }
    }

    lemma TidyNone(f: Path, m: nat)
      requires m <= |f|
      ensures Tidy(f, m, m)
    {
    }

    lemma TidyLast(f: Path, c: Node)
      requires f != [] && Tidy(f, 0, |f| - 1) && c.sessions != [] && (f in nodes ==> nodes[f] == c)
      ensures Tidy(f, 0, |f|)
    {
      assert f[..|f|] == f;
    }

    lemma NothingBelowLeaf(f: Path, k: nat)
      requires Shape() && k <= |f| && f[..k] in nodes
      ensures nodes[f[..k]].child == [] ==> forall j :: k < j <= |f| ==> f[..j] !in nodes
    {
      forall j | nodes[f[..k]].child == [] && k < j <= |f| ensures f[..j] !in nodes {
        assert f[..j][..k] == f[..k];
        LeafMissing(f[..j], k);
      }
    }

    /** Like `Shrunk`, against nodes and child vectors recorded earlier. */
    ghost predicate ShrunkFrom(was: map<Path, (Node, seq<Node>)>, at: Path) reads this, nodes.Values {
      && (forall p :: p in nodes ==> p in was && nodes[p] == was[p].0 && nodes[p].child == Kept(was[p].1, nodes.Keys))
      && (forall p :: p in was && p !in nodes ==> p != [] && p <= at)
    }

    twostate lemma ShrunkMore(was: map<Path, (Node, seq<Node>)>, new at: Path, new k: nat)
      requires old(ShrunkFrom(was, at)) && k <= |at| && Shrunk(at[..k])
      ensures ShrunkFrom(was, at)
    {
      hide Kept;
      forall p | p in nodes ensures nodes[p].child == Kept(was[p].1, nodes.Keys) {
        KeptKept(was[p].1, nodes.Keys, old(nodes).Keys);
      }
    }

    /** One round of the pruning loop, with what has been gathered about the rounds before. */
    method PruneRound(f: Path, buf: seq<Node>, vec: seq<nat>, n: Node,
                      ghost was: map<Path, (Node, seq<Node>)>, ghost flat0: Flat, ghost m: nat)
      requires Valid() && buf != [] && Trail(f, buf, vec) && n == buf[|buf| - 1]
      requires ShrunkFrom(was, f) && flat == Restricted(flat0, nodes.Keys)
      requires |buf| <= m <= |f| && Tidy(f, |buf|, m)
      modifies this`nodes, this`flat, n`child, n`plus, n`well
      ensures Valid() && Trail(f, buf[..|buf| - 1], vec[..|vec| - 1])
      ensures ShrunkFrom(was, f) && flat == Restricted(flat0, nodes.Keys)
      ensures Tidy(f, |buf| - 1, m)
      ensures old(MinimalBut(f[..|buf|])) ==> MinimalBut(f[..|buf| - 1])
      ensures nodes.Values <= old(nodes.Values)
    {
      hide Valid, Linked, Restricted, MinimalBut, Tidy, Spent, ShrunkFrom, Kept;
      PathsOf();
      ShapeOf();
      NothingBelowLeaf(f, |buf|);
      PruneStep(f, buf, vec, n);
      ShrunkMore(was, f, |buf|);
      RestrictedTwice(flat0, old(nodes).Keys, nodes.Keys);
      TidyStep(f, |buf| - 1, m);
    }

    /** The closing loop of `search_and_delete`: prunes upwards along the trail. */
    method Prune(f: Path, buf0: seq<Node>, vec0: seq<nat>)
      requires Valid() && f != [] && Trail(f, buf0, vec0)
      modifies this`nodes, this`flat, nodes.Values`child, nodes.Values`plus, nodes.Values`well
      ensures Valid() && Shrunk(f)
      ensures flat == Restricted(old(flat), nodes.Keys)
      ensures old(MinimalBut(f[..|buf0|])) ==> Minimal()
      ensures Tidy(f, 0, |buf0|)
    {
      hide Valid, Kept, Linked, Restricted, MinimalBut, Tidy, ShrunkFrom;
      var buf, vec := buf0, vec0;
      ghost var was := map p | p in nodes :: (nodes[p], nodes[p].child);
      ShrunkStart(f);
      ShrunkHere(was, f);
      TidyNone(f, |buf0|);
      while buf != []
        invariant Valid() && Trail(f, buf, vec) && ShrunkFrom(was, f)
        invariant flat == Restricted(old(flat), nodes.Keys)
        invariant old(MinimalBut(f[..|buf0|])) ==> MinimalBut(f[..|buf|])
        invariant |buf| <= |buf0| && Tidy(f, |buf|, |buf0|) && nodes.Values <= old(nodes.Values)
      {
        var k := |buf| - 1;
        PruneRound(f, buf, vec, buf[k], was, old(flat), |buf0|);
        buf, vec := buf[..k], vec[..k];
      }
      assert f[..0] == [];
      ShrunkSince(was, f);
    }

    lemma ShrunkHere(was: map<Path, (Node, seq<Node>)>, at: Path)
      requires Valid() && was == map p | p in nodes :: (nodes[p], nodes[p].child)
      ensures ShrunkFrom(was, at)
    {
      hide Linked, Kept;
      KeptHere();
    }

    twostate lemma ShrunkSince(new was: map<Path, (Node, seq<Node>)>, new at: Path)
      requires ShrunkFrom(was, at) && was == old(map p | p in nodes :: (nodes[p], nodes[p].child))
      ensures Shrunk(at)
    {
      hide Kept;
    }

    twostate lemma ShrunkStart(at: Path)
      requires Valid() && nodes == old(nodes) && forall p :: p in nodes ==> SameLinks(nodes[p])
      ensures Shrunk(at) && flat == Restricted(flat, nodes.Keys)
    {
      hide Linked, Kept, Stores;
      KeptHere();
    }

    lemma PathsOf()
      requires Valid()
      ensures [] in nodes && forall p :: p in nodes ==> nodes[p].path == p
    {
    }

    twostate lemma MinimalGrown(at: Path)
      requires old(Minimal()) && Shape() && Grown(at) && at in nodes && !Spent(nodes[at])
      requires forall p :: p in old(nodes) && p != at ==> SamePayload(old(nodes)[p])
      ensures Minimal()
    {
      hide Linked, Kept;
      forall p | p in nodes && p != [] ensures !Spent(nodes[p]) {
        if p in old(nodes) {
          assert !old(Spent(nodes[p]));
          KeptNonempty(nodes[p].child, old(nodes).Keys);
        } else if p != at {
          PrefixClosed(at, |p| + 1);
          InnerHasChild(at, |p|);
          assert at[..|p|] == p;
        }
      }
    }

    /** Puts a client at the node that the walk for `f` leads to. */
    method InsertAt(f: Path, e: Entry<Ctxt>, restart: nat) returns (ghost at: Path)
      requires Valid() && InWindow(pipeLo, e.id) && restart <= 1 && f != []
      modifies this`nodes, this`flat, nodes.Values
      ensures Valid() && Grown(at) && at in nodes && nodes[at].clients != []
      ensures forall p :: p in old(nodes) && p != at ==> SamePayload(old(nodes)[p])
      ensures old(Lands(f, restart, at))
      ensures at == f <==> restart == 1 || !old(Stops(f))
      ensures flat == if (at, e.id) in old(flat).live then old(flat)
                      else old(flat).(live := old(flat).live[(at, e.id) := e.val])
    {
      hide Valid, Linked, Kept, Lands, Stops;
      var n;
      n, at := Locate(f, restart);
      PathsOf();
      PutClient(n, e);
      assert Grown(at);
    }

    /** `dbtree_insert_client`; `at` is where the walk puts the filter. */
    method InsertClient(topic: string, ctxt: Ctxt, pid: Id, restart: nat) returns (ghost at: Path)
      requires Valid() && InWindow(pipeLo, pid) && restart <= 1
      modifies this`nodes, this`flat, nodes.Values
      ensures Valid() && Grown(at) && at in nodes
      ensures old(Lands(Split(topic), restart, at))
      ensures at == Split(topic) <==> restart == 1 || !old(Stops(Split(topic)))
      ensures flat == if (at, pid) in old(flat).live then old(flat)
                      else old(flat).(live := old(flat).live[(at, pid) := ctxt])
      ensures old(Minimal()) ==> Minimal()
    {
      hide Valid, Linked, Kept, Minimal, Lands, Stops, SplitFrom;
      var f := TopicParse(topic);
      at := InsertAt(f, Entry(pid, ctxt), restart);
      if old(Minimal()) { ShapeOf(); MinimalGrown(at); }
    }

    /** Moves the session at the node that the walk for `f` leads to. */
    method ReviveAt(f: Path, sid: Id, pid: Id, restart: nat) returns (ctxt: Ctxt, ghost at: Path)
      requires Valid() && InWindow(sidLo, sid) && InWindow(pipeLo, pid) && restart <= 1 && f != []
      modifies this`nodes, this`flat, nodes.Values
      ensures Valid() && Grown(at) && at in nodes
      ensures forall p :: p in old(nodes) && p != at ==> SamePayload(old(nodes)[p])
      ensures old(Lands(f, restart, at))
      ensures at == f <==> restart == 1 || !old(Stops(f))
      ensures ctxt == if (at, sid) in old(flat).sess then old(flat).sess[(at, sid)] else NULL
      ensures flat == Revived(old(flat), at, sid, pid)
    {
      hide Valid, Linked, Kept, Lands, Stops, Revived;
      var n;
      n, at := Locate(f, restart);
      PathsOf();
      ctxt := Revive(n, sid, pid);
      assert Grown(at);
    }

    /** `dbtree_restore_session`. */
    method RestoreSession(topic: string, sid: Id, pid: Id, restart: nat) returns (ctxt: Ctxt, ghost at: Path)
      requires Valid() && InWindow(sidLo, sid) && InWindow(pipeLo, pid) && restart <= 1
      modifies this`nodes, this`flat, nodes.Values
      ensures Valid() && Grown(at) && at in nodes
      ensures old(Lands(Split(topic), restart, at))
      ensures at == Split(topic) <==> restart == 1 || !old(Stops(Split(topic)))
      ensures ctxt == if (at, sid) in old(flat).sess then old(flat).sess[(at, sid)] else NULL
      ensures flat == Revived(old(flat), at, sid, pid)
      ensures old(Minimal()) && (at, sid) in old(flat).sess ==> Minimal()
    {
      hide Valid, Linked, Kept, Minimal, Lands, Stops, Revived, SplitFrom;
      var f := TopicParse(topic);
      ctxt, at := ReviveAt(f, sid, pid, restart);
      if old(Minimal()) && (at, sid) in old(flat).sess {
        RevivedHolds(old(flat), at, sid, pid);
        PathsOf();
        ClientHere(nodes[at], pid);
        ShapeOf();
        MinimalGrown(at);
      }
    }

    /** `dbtree_insert_retain`. */
    method InsertRetain(topic: string, m: Msg, restart: nat) returns (was: Msg, ghost at: Path)
      requires Valid() && m != NULL && restart <= 1
      modifies this`nodes, this`flat, nodes.Values
      ensures Valid() && Grown(at)
      ensures old(Lands(Split(topic), restart, at))
      ensures at == Split(topic) <==> restart == 1 || !old(Stops(Split(topic)))
      ensures flat == old(flat).(retained := old(flat).retained[at := m])
      ensures was == if at in old(flat).retained then old(flat).retained[at] else NULL
    {
      hide Valid, Linked, Kept, Lands, Stops;
      var f := TopicParse(topic);
      var n;
      n, at := Locate(f, restart);
      PathsOf();
      StoresAt(n);
      was := PutRetain(n, m);
    }

    lemma ShapeOf()
      requires Valid()
      ensures Shape()
    {
    }

    lemma ClientHere(n: Node, pid: Id)
      requires Valid() && n.path in nodes && nodes[n.path] == n && (n.path, pid) in flat.live
      ensures n.clients != []
    {
      assert Stores(flat, n);
      HoldsId(flat.live, n.path, n.clients, pid);
    }

    twostate lemma TrailSame(new f: Path, buf: seq<Node>, new vec: seq<nat>)
      requires old(Trail(f, buf, vec)) && nodes == old(nodes) && forall p :: p in nodes ==> SameLinks(nodes[p])
      ensures Trail(f, buf, vec)
    {
    }

    /** The three removals at the node of a filter. */
    method Pull(c: Node, sid: Id, pid: Id, flag: DeleteFlag) returns (ctxt: Ctxt)
      requires Valid() && c.path in nodes && nodes[c.path] == c && InWindow(sidLo, sid) && InWindow(pipeLo, pid)
      modifies this`flat, c`clients, c`sessions
      ensures Valid()
      ensures flat == Pulled(old(flat), c.path, sid, pid, flag)
      ensures ctxt == PulledCtxt(old(flat), c.path, sid, pid, flag)
      ensures flag.CacheSession? ==> c.sessions != []
    {
      hide Valid;
      match flag
      case CacheSession =>
        ctxt := TakeClient(c, pid);
        PutSession(c, Entry(sid, ctxt));
      case DeleteClient =>
        ctxt := TakeClient(c, pid);
      case DeleteSession =>
        var found;
        found, ctxt := TakeSession(c, sid);
    }

    /** `search_and_delete`: removes or caches one entry at the filter's node and prunes upwards. */
    method SearchAndDelete(topic: string, sid: Id, pid: Id, flag: DeleteFlag) returns (ctxt: Ctxt)
      requires Valid() && InWindow(sidLo, sid) && InWindow(pipeLo, pid)
      modifies this`nodes, this`flat, nodes.Values
      ensures Valid() && Shrunk(Split(topic))
      ensures Split(topic) in old(nodes) ==>
        && flat == Restricted(Pulled(old(flat), Split(topic), sid, pid, flag), nodes.Keys)
        && ctxt == PulledCtxt(old(flat), Split(topic), sid, pid, flag)
      ensures Split(topic) in old(nodes) ==> Tidy(Split(topic), 0, |Split(topic)|)
      ensures Split(topic) !in old(nodes) ==> flat == old(flat) && nodes == old(nodes) && ctxt == NULL
      ensures old(Minimal()) ==> Minimal()
    {
      hide Valid, Linked, Kept, Minimal, MinimalBut, Restricted, Pulled, PulledCtxt, Tidy;
      var f := TopicParse(topic);
      var found, buf, vec := FindTrail(f);
      PathsOf();
      if !found {
        ShrunkStart(f);
        return NULL;
      }
      ctxt := Cut(f, buf, vec, sid, pid, flag);
    }

    /** The entry at the end of the trail is taken out, or cached in its place; then the way back is pruned. */
    method Cut(f: Path, buf: seq<Node>, vec: seq<nat>, sid: Id, pid: Id, flag: DeleteFlag) returns (ctxt: Ctxt)
      requires Valid() && InWindow(sidLo, sid) && InWindow(pipeLo, pid) && f != [] && |buf| == |f| && Trail(f, buf, vec)
      modifies this`nodes, this`flat, nodes.Values
      ensures Valid() && Shrunk(f) && Tidy(f, 0, |f|)
      ensures flat == Restricted(Pulled(old(flat), f, sid, pid, flag), nodes.Keys)
      ensures ctxt == PulledCtxt(old(flat), f, sid, pid, flag)
      ensures old(Minimal()) ==> Minimal()
    {
      hide Valid, Linked, Kept, Minimal, Restricted, Pulled, PulledCtxt, Trail, Tidy;
      if flag.CacheSession? {
        ctxt := CutCached(f, buf, vec, sid, pid);
      } else {
        ctxt := CutOut(f, buf, vec, sid, pid, flag);
      }
    }

    method CutCached(f: Path, buf: seq<Node>, vec: seq<nat>, sid: Id, pid: Id) returns (ctxt: Ctxt)
      requires Valid() && InWindow(sidLo, sid) && InWindow(pipeLo, pid) && f != [] && |buf| == |f| && Trail(f, buf, vec)
      modifies this`nodes, this`flat, nodes.Values
      ensures Valid() && Shrunk(f) && Tidy(f, 0, |f|)
      ensures flat == Restricted(Pulled(old(flat), f, sid, pid, CacheSession), nodes.Keys)
      ensures ctxt == PulledCtxt(old(flat), f, sid, pid, CacheSession)
      ensures old(Minimal()) ==> Minimal()
    {
      hide Valid, Linked, Kept, Minimal, MinimalBut, Restricted, Pulled, PulledCtxt, Trail, Tidy, ShrunkFrom, Shrunk;
      PathsOf();
      TrailEnd(f, buf, vec);
      ghost var was := map p | p in nodes :: (nodes[p], nodes[p].child);
      var c := buf[|buf| - 1].child[vec[|vec| - 1]];
      ctxt := Pull(c, sid, pid, CacheSession);
      TrailSame(f, buf, vec);
      if old(Minimal()) { MinimalRefilled(c, f[..|buf| - 1]); }
      ShrunkHere(was, f);
      label Pulled:
      PruneAbove(f, buf, vec, c);
      ShrunkMore@Pulled(was, f, |f|);
      ShrunkSince(was, f);
    }

    /** Prunes above the last node of the trail, which holds a session. */
    method PruneAbove(f: Path, buf: seq<Node>, vec: seq<nat>, c: Node)
      requires Valid() && f != [] && |buf| == |f| && Trail(f, buf, vec)
      requires f in nodes && nodes[f] == c && c.sessions != []
      modifies this`nodes, this`flat, nodes.Values`child, nodes.Values`plus, nodes.Values`well
      ensures Valid() && Shrunk(f) && Tidy(f, 0, |f|)
      ensures flat == Restricted(old(flat), nodes.Keys)
      ensures old(MinimalBut(f[..|buf| - 1])) ==> Minimal()
    {
      hide Valid, Linked, Kept, Minimal, MinimalBut, Restricted, Trail, Tidy;
      TrailEnd(f, buf, vec);
      TrailPrefix(f, buf, vec);
      Prune(f, buf[..|buf| - 1], vec[..|vec| - 1]);
      TidyLast(f, c);
    }

    method CutOut(f: Path, buf: seq<Node>, vec: seq<nat>, sid: Id, pid: Id, flag: DeleteFlag) returns (ctxt: Ctxt)
      requires Valid() && InWindow(sidLo, sid) && InWindow(pipeLo, pid) && f != [] && |buf| == |f| && Trail(f, buf, vec)
      requires !flag.CacheSession?
      modifies this`nodes, this`flat, nodes.Values
      ensures Valid() && Shrunk(f) && Tidy(f, 0, |f|)
      ensures flat == Restricted(Pulled(old(flat), f, sid, pid, flag), nodes.Keys)
      ensures ctxt == PulledCtxt(old(flat), f, sid, pid, flag)
      ensures old(Minimal()) ==> Minimal()
    {
      hide Valid, Linked, Kept, Minimal, MinimalBut, Restricted, Pulled, PulledCtxt, Trail, Tidy;
      PathsOf();
      TrailEnd(f, buf, vec);
      var c := buf[|buf| - 1].child[vec[|vec| - 1]];
      ctxt := Pull(c, sid, pid, flag);
      TrailSame(f, buf, vec);
      label Pulled:
      if old(Minimal()) { MinimalEmptied(c); }
      Prune(f, buf, vec);
      assert forall p :: p in nodes ==> old@Pulled(nodes[p].child) == old(nodes[p].child);
    }

    /** Clears the retained message at the end of the trail and prunes the way back. */
    method CutRetain(f: Path, buf: seq<Node>, vec: seq<nat>) returns (was: Msg)
      requires Valid() && f != [] && |buf| == |f| && Trail(f, buf, vec)
      modifies this`nodes, this`flat, nodes.Values
      ensures Valid() && Shrunk(f) && Tidy(f, 0, |f|)
      ensures flat == Restricted(old(flat).(retained := old(flat).retained - {f}), nodes.Keys)
      ensures was == if f in old(flat).retained then old(flat).retained[f] else NULL
    {
      hide Valid, Linked, Kept, MinimalBut, Restricted, Trail, Tidy;
      PathsOf();
      TrailEnd(f, buf, vec);
      was := TakeRetain(buf[|buf| - 1].child[vec[|vec| - 1]]);
      TrailSame(f, buf, vec);
      label Taken:
      Prune(f, buf, vec);
      assert forall p :: p in nodes ==> old@Taken(nodes[p].child) == old(nodes[p].child);
    }

    lemma TrailEnd(f: Path, buf: seq<Node>, vec: seq<nat>)
      requires f != [] && |buf| == |f| && Trail(f, buf, vec)
      ensures |vec| == |buf| && vec[|vec| - 1] < |buf[|buf| - 1].child|
      ensures f in nodes && buf[|buf| - 1].child[vec[|vec| - 1]] == nodes[f]
      ensures f[..|buf|] == f
    {
      assert f[..|f|] == f;
    }

    lemma TrailPrefix(f: Path, buf: seq<Node>, vec: seq<nat>)
      requires buf != [] && Trail(f, buf, vec)
      ensures Trail(f, buf[..|buf| - 1], vec[..|vec| - 1])
    {
    }

    twostate lemma MinimalEmptied(c: Node)
      requires old(Minimal()) && nodes == old(nodes) && forall p :: p in nodes ==> SameLinks(nodes[p])
      requires forall p :: p in nodes && p != c.path ==> SamePayload(nodes[p])
      ensures MinimalBut(c.path)
    {
      assert forall p :: p in nodes && p != [] ==> !old(Spent(nodes[p]));
    }

    twostate lemma MinimalRefilled(c: Node, new q: Path)
      requires old(Minimal()) && nodes == old(nodes) && forall p :: p in nodes ==> SameLinks(nodes[p])
      requires forall p :: p in nodes && p != c.path ==> SamePayload(nodes[p])
      requires c.path in nodes && nodes[c.path] == c && !Spent(c)
      ensures MinimalBut(q)
    {
      assert forall p :: p in nodes && p != [] ==> !old(Spent(nodes[p]));
    }

    lemma LinksOf(n: Node, index: nat)
      requires Shape() && n.path in nodes && nodes[n.path] == n && index < |n.child|
      ensures Layout(n.child, n.plus, n.well) && n.child[index] != n
      ensures n.child[index].path == Kid(n.path, n.child[index].topic)
      ensures n.child[index].path in nodes && nodes[n.child[index].path] == n.child[index]
    {
      assert Linked(nodes, n);
      assert IsKid(nodes, n.path, n.child[index]);
      ParentOfKid(n.path, n.child[index].topic);
    }
  }

  datatype DeleteFlag = DeleteSession | DeleteClient | CacheSession

  ghost function Looked(m: map<(Path, Id), Ctxt>, p: Path, id: Id): Ctxt {
    if (p, id) in m then m[(p, id)] else NULL
  }

  ghost function PulledCtxt(flat: Flat, p: Path, sid: Id, pid: Id, flag: DeleteFlag): Ctxt {
    if flag.DeleteSession? then Looked(flat.sess, p, sid) else Looked(flat.live, p, pid)
  }

  /** What the three removals do to the index. Caching leaves a session already there as it is. */
  ghost function Pulled(flat: Flat, p: Path, sid: Id, pid: Id, flag: DeleteFlag): Flat {
    match flag
    case DeleteClient => flat.(live := flat.live - {(p, pid)})
    case DeleteSession => flat.(sess := flat.sess - {(p, sid)})
    case CacheSession =>
      var off := flat.(live := flat.live - {(p, pid)});
      if (p, sid) in flat.sess then off else off.(sess := flat.sess[(p, sid) := Looked(flat.live, p, pid)])
  }

  lemma OffTree(db: DbTree, p: Path, pid: Id)
    requires db.Valid()
    ensures p !in db.nodes ==> (p, pid) !in db.flat.live && db.flat.live - {(p, pid)} == db.flat.live
  {
  }

  lemma NothingRetained(flat: Flat, keys: set<Path>)
    requires flat.retained == map[]
    ensures Restricted(flat, keys) == flat
  {
  }

  lemma RevivedHolds(flat: Flat, p: Path, sid: Id, pid: Id)
    requires (p, sid) in flat.sess
    ensures (p, pid) in Revived(flat, p, sid, pid).live
  {
  }

  /** Pruning drops the retained messages of the nodes it removes. */
  ghost function Restricted(flat: Flat, keys: set<Path>): Flat {
    flat.(retained := map p | p in flat.retained && p in keys :: flat.retained[p])
  }

  /** A message for each node: nothing is lost, or what one node held. */
  lemma RestrictedLess(flat: Flat, keys: set<Path>, p: Path)
    requires flat.retained.Keys <= keys
    ensures Restricted(flat, keys) == flat
    ensures Restricted(flat, keys - {p}) == flat.(retained := flat.retained - {p})
  {
  }

  lemma RestrictedTwice(flat: Flat, more: set<Path>, keys: set<Path>)
    requires keys <= more
    ensures Restricted(Restricted(flat, more), keys) == Restricted(flat, keys)
  {
  }

  /** A node that pruning removes. */
  predicate Spent(n: Node) reads n { n.child == [] && n.clients == [] && n.sessions == [] }

  /** The session of `sid` at one filter becomes a client of `pid`, unless that pipe has one there. */
  ghost function Revived(flat: Flat, p: Path, sid: Id, pid: Id): Flat {
    if (p, sid) !in flat.sess then flat
    else
      var rest := flat.(sess := flat.sess - {(p, sid)});
      if (p, pid) in flat.live then rest
      else rest.(live := flat.live[(p, pid) := flat.sess[(p, sid)]])
  }

  lemma HoldsValue(flat: map<(Path, Id), Ctxt>, p: Path, v: seq<Entry<Ctxt>>, e: Entry<Ctxt>)
    requires Holds(flat, p, v) && e in v
    ensures (p, e.id) in flat && flat[(p, e.id)] == e.val
  {
    assert e == Entry(e.id, e.val);
  }

  lemma LinkedOtherDrop(nodes: map<Path, Node>, m: Node, q: Path)
    requires Linked(nodes, m) && q != [] && Parent(q) != m.path
    ensures Linked(nodes - {q}, m)
  {
    forall i | 0 <= i < |m.child| ensures IsKid(nodes - {q}, m.path, m.child[i]) {
      assert IsKid(nodes, m.path, m.child[i]);
      ParentOfKid(m.path, m.child[i].topic);
    }
  }

  lemma LinkedParentDrop(nodes: map<Path, Node>, was: seq<Node>, n: Node, index: nat, plus: int, well: int)
    requires forall i :: 0 <= i < |was| ==> IsKid(nodes, n.path, was[i])
    requires forall t {:trigger Kid(n.path, t)} :: Kid(n.path, t) in nodes ==> nodes[Kid(n.path, t)] in was
    requires index < |was| && n.child == VecErase(was, index) && Layout(n.child, n.plus, n.well)
    requires Layout(was, plus, well) && forall p :: p in nodes ==> nodes[p].path == p
    ensures Linked(nodes - {was[index].path}, n)
  {
    hide Layout;
    var q := was[index].path;
    forall i | 0 <= i < |n.child| ensures IsKid(nodes - {q}, n.path, n.child[i]) {
      var j := if i < index then i else i + 1;
      assert n.child[i] == was[j] && IsKid(nodes, n.path, was[j]) && IsKid(nodes, n.path, was[index]);
      if j < index { LayoutDistinct(was, plus, well, j, index); } else { LayoutDistinct(was, plus, well, index, j); }
      ParentOfKid(n.path, was[j].topic);
      ParentOfKid(n.path, was[index].topic);
    }
    forall t | Kid(n.path, t) in nodes - {q} ensures nodes[Kid(n.path, t)] in n.child {
      var j :| 0 <= j < |was| && was[j] == nodes[Kid(n.path, t)];
      assert IsKid(nodes, n.path, was[j]) && j != index;
      assert n.child[if j < index then j else j - 1] == was[j];
    }
  }

  twostate predicate SameLinks(n: Node) reads n`child, n`plus, n`well {
    n.child == old(n.child) && n.plus == old(n.plus) && n.well == old(n.well)
  }

  lemma HoldsElsewhere(a: map<(Path, Id), Ctxt>, b: map<(Path, Id), Ctxt>, p: Path, v: seq<Entry<Ctxt>>)
    requires Holds(a, p, v)
    requires forall id: Id :: ((p, id) in a <==> (p, id) in b) && ((p, id) in a ==> a[(p, id)] == b[(p, id)])
    ensures Holds(b, p, v)
  {
  }

  ghost predicate InsertionPoint(n: Node, t: string, index: nat) reads n {
    && WildCount(n.plus, n.well) <= index <= |n.child|
    && (forall i :: WildCount(n.plus, n.well) <= i < index ==> StrCmp(n.child[i].topic, t) < 0)
    && (forall i :: index <= i < |n.child| ==> StrCmp(n.child[i].topic, t) > 0)
  }

  lemma LinkedOther(nodes: map<Path, Node>, m: Node, c: Node)
    requires Linked(nodes, m) && c.path !in nodes && c.path != [] && Parent(c.path) != m.path
    ensures Linked(nodes[c.path := c], m)
  {
    forall t | Kid(m.path, t) in nodes[c.path := c] ensures nodes[c.path := c][Kid(m.path, t)] in m.child {
      ParentOfKid(m.path, t);
    }
    assert forall i :: 0 <= i < |m.child| ==> IsKid(nodes, m.path, m.child[i]);
  }

  lemma LinkedLeaf(nodes: map<Path, Node>, c: Node)
    requires forall p {:trigger Parent(p)} :: p in nodes && p != [] ==> Parent(p) in nodes
    requires c.path !in nodes && c.child == [] && c.plus == -1 && c.well == -1
    ensures Linked(nodes[c.path := c], c)
  {
    forall t ensures Kid(c.path, t) !in nodes[c.path := c] {
      ParentOfKid(c.path, t);
    }
  }

  lemma LinkedParent(nodes: map<Path, Node>, was: seq<Node>, n: Node, c: Node, index: nat)
    requires forall i :: 0 <= i < |was| ==> IsKid(nodes, n.path, was[i])
    requires forall t {:trigger Kid(n.path, t)} :: Kid(n.path, t) in nodes ==> nodes[Kid(n.path, t)] in was
    requires c.path == Kid(n.path, c.topic) && c.path !in nodes
    requires index <= |was| && n.child == VecPlace(was, index, c) && Layout(n.child, n.plus, n.well)
    ensures Linked(nodes[c.path := c], n)
  {
    assert n.child == was[..index] + [c] + was[index..];
    forall x | x in was ensures x in n.child {
      var i :| 0 <= i < |was| && was[i] == x;
      assert n.child[if i < index then i else i + 1] == x;
    }
    assert c == n.child[index];
    forall i | 0 <= i < |n.child| ensures IsKid(nodes[c.path := c], n.path, n.child[i]) {
      assert i < index ==> n.child[i] == was[i];
      assert i > index ==> n.child[i] == was[i - 1];
    }
  }
}
