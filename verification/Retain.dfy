/** Retained messages: the lookup for a new subscription (`collect_retains`, `dbtree_find_retain`). */
module Retain {
  import opened Strings
  import opened Topics
  import opened Nodes
  import opened Tree
  import opened Order
  import opened Publish

  /** The first `|p|` levels of the filter allow path `p`. */
  ghost predicate Allowed(f: Path, p: Path)
    requires |p| <= |f|
  {
    forall i :: 0 <= i < |p| ==> LevelMatches(f[i], p[i])
  }

  /** `buf` lists, once each, the nodes at depth `k` that the filter allows. */
  ghost predicate Reached(nodes: map<Path, Node>, f: Path, k: nat, buf: seq<Node>)
    requires k <= |f|
  {
    && InTree(nodes, buf) && Distinct(buf)
    && (forall c :: c in buf ==> |c.path| == k && Allowed(f, c.path))
    && (forall p :: p in nodes && |p| == k && Allowed(f, p) ==> nodes[p] in buf)
  }

  lemma AllowedStep(f: Path, p: Path)
    requires p != [] && |p| <= |f|
    ensures Allowed(f, p) <==> Allowed(f, Parent(p)) && LevelMatches(f[|p| - 1], Last(p))
  {
    assert forall i :: 0 <= i < |p| - 1 ==> Parent(p)[i] == p[i];
  }

  lemma ReachedStep(nodes: map<Path, Node>, f: Path, k: nat, buf: seq<Node>, next: seq<Node>)
    requires k < |f| && Reached(nodes, f, k, buf) && KidsOf(nodes, Paths(buf), ByFilter(f[k]), next)
    requires forall p {:trigger Parent(p)} :: p in nodes && p != [] ==> Parent(p) in nodes
    requires forall p :: p in nodes ==> nodes[p].path == p
    ensures Reached(nodes, f, k + 1, next)
  {
    hide LevelMatches, Allowed;
    forall c | c in next ensures |c.path| == k + 1 && Allowed(f, c.path) {
      AllowedStep(f, c.path);
    }
    forall p | p in nodes && |p| == k + 1 && Allowed(f, p) ensures nodes[p] in next {
      AllowedStep(f, p);
      KidOfParent(p);
      assert nodes[Parent(p)] in buf;
    }
  }

  /** The messages retained at a row of nodes, in order. */
  ghost function MessagesAt(s: seq<Node>): seq<Msg> reads s {
    if s == [] then []
    else MessagesAt(s[..|s| - 1]) + (if s[|s| - 1].retain != NULL then [s[|s| - 1].retain] else [])
  }

  lemma {:induction false} MessagesAppend(a: seq<Node>, b: seq<Node>)
    ensures MessagesAt(a + b) == MessagesAt(a) + MessagesAt(b)
  {
    if b == [] {
      assert a + b == a;
    } else {
      assert (a + b)[..|a + b| - 1] == a + b[..|b| - 1];
      MessagesAppend(a, b[..|b| - 1]);
    }
  }

  /** A buffer of nodes of one depth, in the order in which a lookup fills it. */
  ghost predicate InRow(s: seq<Node>) {
    forall i, j :: 0 <= i < j < |s| && |s[i].path| == |s[j].path| ==> !Left(s[j].path, s[i].path)
  }

  /** A sweep goes by depth and, in one depth, from parent to parent. */
  ghost predicate Broad(s: seq<Node>) {
    forall i, j :: 0 <= i < j < |s| ==>
      |s[i].path| < |s[j].path| || (|s[i].path| == |s[j].path| && !Fore(s[j].path, s[i].path))
  }

  /** Children in their order are in the order of both. */
  lemma ChildOrder(db: DbTree, n: Node)
    requires db.Shape() && n.path in db.nodes && db.nodes[n.path] == n
    ensures InRow(n.child) && Broad(n.child)
  {
    hide StrCmp;
    assert Linked(db.nodes, n);
    forall i, j | 0 <= i < j < |n.child|
      ensures |n.child[i].path| == |n.child[j].path|
      ensures !Left(n.child[j].path, n.child[i].path) && !Fore(n.child[j].path, n.child[i].path)
    {
      var a, b := n.child[i], n.child[j];
      assert IsKid(db.nodes, n.path, a) && IsKid(db.nodes, n.path, b);
      ParentOfKid(n.path, a.topic);
      ParentOfKid(n.path, b.topic);
      ChildStands(n.child, n.plus, n.well, i, j);
    }
  }

  lemma ChildStands(child: seq<Node>, plus: int, well: int, i: nat, j: nat)
    requires Layout(child, plus, well) && i < j < |child|
    ensures !Stands(child[j].topic, child[i].topic)
  {
    hide StrCmp;
    var l := WildCount(plus, well);
    if l <= i {
      assert StrCmp(child[i].topic, child[j].topic) < 0;
      StrCmpAntisymmetric(child[i].topic, child[j].topic);
    } else {
      assert i == plus || i == well;
    }
  }

  /** Nodes visited later have children that come later. */
  lemma RowUnion(nodes: map<Path, Node>, w: Want, n: Node, after: seq<Node>, r: seq<Node>, s: seq<Node>)
    requires KidsOf(nodes, Paths(after), w, r) && KidsOf(nodes, {n.path}, w, s)
    requires forall c :: c in after ==> |c.path| == |n.path| && c.path != n.path
    ensures InRow(r) && InRow(s) && (forall c :: c in after ==> |c.path| == |n.path| && !Left(c.path, n.path)) ==>
      InRow(r + s)
    ensures Broad(r) && Broad(s) && (forall c :: c in after ==> |c.path| == |n.path| && !Fore(n.path, c.path)) ==>
      Broad(r + s)
  {
    hide Wanted, Kid;
    forall i, j | 0 <= i < |r| <= j < |r + s|
      ensures
        var c, d := (r + s)[i].path, (r + s)[j].path;
        && |c| == |d|
        && ((forall x :: x in after ==> |x.path| == |n.path| && !Left(x.path, n.path)) ==> !Left(d, c))
        && ((forall x :: x in after ==> |x.path| == |n.path| && !Fore(n.path, x.path)) ==> !Fore(d, c))
    {
      var c, d := (r + s)[i], (r + s)[j];
      assert c in r && d in s;
      assert Parent(d.path) == n.path && Parent(c.path) in Paths(after);
      var x :| x in after && x.path == Parent(c.path);
    }
  }

  lemma AllChildren(db: DbTree, n: Node)
    requires db.Shape() && n.path in db.nodes && db.nodes[n.path] == n
    ensures KidsOf(db.nodes, {n.path}, ByFilter(PLUS), n.child)
  {
    hide StrCmp;
    assert Linked(db.nodes, n);
    forall c | c in n.child
      ensures c.path in db.nodes && db.nodes[c.path] == c && c.path != [] && Parent(c.path) == n.path
    {
      var i :| 0 <= i < |n.child| && n.child[i] == c;
      assert IsKid(db.nodes, n.path, n.child[i]);
      ParentOfKid(n.path, c.topic);
    }
    forall i, j | 0 <= i < j < |n.child| ensures n.child[i] != n.child[j] {
      LayoutDistinct(n.child, n.plus, n.well, i, j);
    }
  }

  /** The children of one visited node that a level without `#` leads to. */
  method Step(db: DbTree, n: Node, level: string) returns (kids: seq<Node>)
    requires db.Valid() && n.path in db.nodes && db.nodes[n.path] == n && level != WELL
    ensures KidsOf(db.nodes, {n.path}, ByFilter(level), kids) && InRow(kids)
  {
    hide Linked, Layout, InsertionPoint, Kid, StrCmp, KidsOf, DbTree.Valid, Left, Broad;
    db.ShapeOf();
    db.PathsOf();
    kids := [];
    if level == PLUS {
      AllChildren(db, n);
      ChildOrder(db, n);
      kids := n.child;
    } else {
      OneName(db, n.path, level);
      if n.child == [] {
        NoKids(db, n);
        assert Kid(n.path, level) !in db.nodes;
        return;
      }
      var found, index := true, 0;
      if n.child[0].topic != level {
        found, index := db.FindNext(n, level);
      } else {
        db.FirstKid(n);
      }
      if found { kids := [n.child[index]]; }
    }
  }

  lemma OneName(db: DbTree, p: Path, level: string)
    requires db.Valid() && level != PLUS
    ensures KidsOf(db.nodes, {p}, ByFilter(level), KidSeq(db.nodes, p, level))
  {
    hide KidsOf, KidSeq;
    db.PathsOf();
    WantedNames(db.nodes, p, ByFilter(level), [level]);
    KidListUnfold(db.nodes, p, level, level, level);
  }

  /** `collect_retains` at a level other than `#`: the last one collects messages, the others fill the next buffer. */
  method CollectNamed(db: DbTree, nodes0: seq<Node>, f: Path, k: nat, vec0: seq<Msg>, ghost d: nat)
    returns (nodesT: seq<Node>, vec: seq<Msg>, ghost kids: seq<Node>)
    requires db.Valid() && k < |f| && f[k] != WELL && RowAt(db.nodes, d, nodes0)
    ensures KidsOf(db.nodes, Paths(nodes0), ByFilter(f[k]), kids) && InRow(kids)
    ensures k + 1 < |f| ==> nodesT == kids && vec == vec0
    ensures k + 1 == |f| ==> nodesT == [] && vec == vec0 + MessagesAt(kids)
  {
    hide DbTree.Valid, KidsOf, MessagesAt, Left, Fore;
    nodesT, vec, kids := [], vec0, [];
    var nodes := nodes0;
    ghost var done: set<Path> := {};
    NoKidsOf(db.nodes, ByFilter(f[k]));
    NoMessages();
    assert vec0 + [] == vec0;
    while nodes != []
      invariant nodes <= nodes0 && done == Paths(nodes0[|nodes|..])
      invariant KidsOf(db.nodes, done, ByFilter(f[k]), kids) && InRow(kids)
      invariant k + 1 < |f| ==> nodesT == kids && vec == vec0
      invariant k + 1 == |f| ==> nodesT == [] && vec == vec0 + MessagesAt(kids)
    {
      var n := nodes[|nodes| - 1];
      assert n in nodes0;
      nodes := nodes[..|nodes| - 1];
      assert nodes0[|nodes|..] == [n] + nodes0[|nodes| + 1..];
      TailApart(db.nodes, nodes0, |nodes|);
      LaterInRow(db.nodes, nodes0, |nodes|, d);
      var h := Step(db, n, f[k]);
      RowUnion(db.nodes, ByFilter(f[k]), n, nodes0[|nodes| + 1..], kids, h);
      KidsUnion(db.nodes, done, {n.path}, ByFilter(f[k]), kids, h);
      if k + 1 == |f| {
        var ms := Messages(h);
        MessagesAppend(kids, h);
        assert vec + ms == vec0 + (MessagesAt(kids) + MessagesAt(h));
        vec := vec + ms;
      } else {
        nodesT := nodesT + h;
      }
      kids := kids + h;
      done := done + {n.path};
    }
    assert nodes0[0..] == nodes0;
  }

  lemma LaterInRow(nodes: map<Path, Node>, s: seq<Node>, i: nat, d: nat)
    requires RowAt(nodes, d, s) && i < |s|
    ensures forall c :: c in s[i + 1..] ==>
      |c.path| == |s[i].path| && c.path != s[i].path && !Left(c.path, s[i].path)
  {
    hide Left;
    assert s[i] in s;
    forall c | c in s[i + 1..] ensures |c.path| == |s[i].path| && c.path != s[i].path && !Left(c.path, s[i].path) {
      var j :| i < j < |s| && s[j] == c;
      assert s[j] in s && s[i] != s[j];
    }
  }

  lemma EarlierBroad(nodes: map<Path, Node>, s: seq<Node>, i: nat, d: nat)
    requires InTree(nodes, s) && Distinct(s) && Broad(s) && i < |s| && forall c :: c in s ==> |c.path| == d
    ensures forall c :: c in s[..i] ==> |c.path| == |s[i].path| && c.path != s[i].path && !Fore(s[i].path, c.path)
  {
    hide Fore;
    assert s[i] in s;
    forall c | c in s[..i] ensures |c.path| == |s[i].path| && c.path != s[i].path && !Fore(s[i].path, c.path) {
      var j :| 0 <= j < i && s[j] == c;
      assert s[j] in s && s[j] != s[i];
    }
  }

  /** The nodes at the depth of `q` and deeper that lie at or below it. */
  ghost predicate Subtree(nodes: map<Path, Node>, q: Path, hits: seq<Node>) {
    && InTree(nodes, hits) && Distinct(hits) && Broad(hits)
    && (forall c :: c in hits ==> q <= c.path)
    && (forall p :: p in nodes && q <= p ==> nodes[p] in hits)
  }

  /** `buf` lists, once each, the nodes at or below `q` that are `d` levels down. */
  ghost predicate Row(nodes: map<Path, Node>, q: Path, d: nat, buf: seq<Node>) {
    && InTree(nodes, buf) && Distinct(buf) && Broad(buf)
    && (forall c :: c in buf ==> q <= c.path && |c.path| == d)
    && (forall p :: p in nodes && q <= p && |p| == d ==> nodes[p] in buf)
  }

  /** `hits` lists, once each, the nodes at or below `q` above depth `d`. */
  ghost predicate Above(nodes: map<Path, Node>, q: Path, d: nat, hits: seq<Node>) {
    && InTree(nodes, hits) && Distinct(hits) && Broad(hits)
    && (forall c :: c in hits ==> q <= c.path && |c.path| < d)
    && (forall p :: p in nodes && q <= p && |p| < d ==> nodes[p] in hits)
  }

  lemma RowStep(nodes: map<Path, Node>, q: Path, d: nat, buf: seq<Node>, next: seq<Node>)
    requires |q| <= d && Row(nodes, q, d, buf) && KidsOf(nodes, Paths(buf), ByFilter(PLUS), next) && Broad(next)
    requires forall p {:trigger Parent(p)} :: p in nodes && p != [] ==> Parent(p) in nodes
    requires forall p :: p in nodes ==> nodes[p].path == p
    ensures Row(nodes, q, d + 1, next)
  {
    hide Broad;
    forall c | c in next ensures q <= c.path && |c.path| == d + 1 {
      var b :| b in buf && b.path == Parent(c.path);
      assert q <= b.path && c.path[..d] == b.path;
    }
    forall p | p in nodes && q <= p && |p| == d + 1 ensures nodes[p] in next {
      KidOfParent(p);
      assert Parent(p) == p[..d] && q <= p[..d];
      assert nodes[Parent(p)] in buf;
    }
  }

  lemma AboveStep(nodes: map<Path, Node>, q: Path, d: nat, hits: seq<Node>, buf: seq<Node>)
    requires Above(nodes, q, d, hits) && Row(nodes, q, d, buf)
    ensures Above(nodes, q, d + 1, hits + buf)
  {
    BroadMore(hits, buf, d);
    hide Broad;
    var r := hits + buf;
    assert forall c :: c in r <==> c in hits || c in buf;
    forall i, j | 0 <= i < j < |r| ensures r[i] != r[j] {
      if i < |hits| <= j {
        assert r[i] in hits && r[j] in buf;
      } else if |hits| <= i {
        assert r[i] == buf[i - |hits|] && r[j] == buf[j - |hits|];
      }
    }
  }

  lemma BroadMore(a: seq<Node>, b: seq<Node>, d: nat)
    requires Broad(a) && Broad(b) && (forall c :: c in a ==> |c.path| < d) && forall c :: c in b ==> |c.path| == d
    ensures Broad(a + b)
  {
    hide Fore;
    forall i, j | 0 <= i < |a| <= j < |a + b| ensures |(a + b)[i].path| < |(a + b)[j].path| {
      assert (a + b)[i] in a && (a + b)[j] in b;
    }
  }

  /** One row of the sweep below a node: its messages, and all children as the next row. */
  method Sweep(db: DbTree, buf: seq<Node>, vec0: seq<Msg>, ghost d: nat) returns (next: seq<Node>, vec: seq<Msg>)
    requires db.Valid() && InTree(db.nodes, buf) && Distinct(buf) && Broad(buf)
    requires forall c :: c in buf ==> |c.path| == d
    ensures vec == vec0 + MessagesAt(buf) && KidsOf(db.nodes, Paths(buf), ByFilter(PLUS), next) && Broad(next)
  {
    hide DbTree.Valid, KidsOf, MessagesAt, Broad, InRow, Left, Fore;
    db.ShapeOf();
    next, vec := [], vec0;
    NoKidsOf(db.nodes, ByFilter(PLUS));
    NoMessages();
    NoneBroad();
    assert vec0 + [] == vec0;
    ghost var done: set<Path> := {};
    for i := 0 to |buf|
      invariant done == Paths(buf[..i]) && vec == vec0 + MessagesAt(buf[..i])
      invariant KidsOf(db.nodes, done, ByFilter(PLUS), next) && Broad(next)
    {
      var n := buf[i];
      assert n in buf && buf[..i + 1] == buf[..i] + [n];
      HeadApart(db.nodes, buf, i);
      MessagesSnoc(buf[..i], n);
      if n.retain != NULL {
        assert (vec0 + MessagesAt(buf[..i])) + [n.retain] == vec0 + (MessagesAt(buf[..i]) + [n.retain]);
        vec := vec + [n.retain];
      } else {
        assert MessagesAt(buf[..i]) + [] == MessagesAt(buf[..i]);
      }
      AllChildren(db, n);
      ChildOrder(db, n);
      EarlierBroad(db.nodes, buf, i, d);
      RowUnion(db.nodes, ByFilter(PLUS), n, buf[..i], next, n.child);
      KidsUnion(db.nodes, done, {n.path}, ByFilter(PLUS), next, n.child);
      next := next + n.child;
      done := done + {n.path};
    }
    assert buf[..|buf|] == buf;
  }

  lemma NoneBroad()
    ensures Broad([]) && InRow([])
  {
  }

  lemma HeadApart(nodes: map<Path, Node>, s: seq<Node>, i: nat)
    requires InTree(nodes, s) && Distinct(s) && i < |s|
    ensures s[i].path !in Paths(s[..i])
  {
    forall c | c in s[..i] ensures c.path != s[i].path {
      var j :| 0 <= j < i && s[j] == c;
      assert s[i] in s && s[j] in s && s[j] != s[i];
    }
  }

  lemma MessagesSnoc(s: seq<Node>, c: Node)
    ensures MessagesAt(s + [c]) == MessagesAt(s) + (if c.retain != NULL then [c.retain] else [])
  {
    assert (s + [c])[..|s|] == s;
  }

  ghost function Deeper(nodes: map<Path, Node>, d: nat): set<Path> { set p | p in nodes && |p| >= d }

  /** A row that is not empty lies above fewer nodes than it counts itself. */
  lemma DeeperShrinks(nodes: map<Path, Node>, d: nat, c: Node)
    requires c.path in nodes && |c.path| == d
    ensures |Deeper(nodes, d + 1)| < |Deeper(nodes, d)|
  {
    var a, b := Deeper(nodes, d + 1), Deeper(nodes, d);
    assert a <= b && c.path in b && c.path !in a;
    Smaller(a, b, c.path);
  }

  lemma Smaller(a: set<Path>, b: set<Path>, x: Path)
    requires a <= b && x in b && x !in a
    ensures |a| < |b|
  {
    assert a <= b - {x};
    SubsetSize(a, b - {x});
  }

  lemma {:induction false} SubsetSize(a: set<Path>, b: set<Path>)
    requires a <= b
    ensures |a| <= |b|
  {
    if a != {} {
      var x :| x in a;
      SubsetSize(a - {x}, b - {x});
    }
  }

  lemma DeeperLess(nodes: map<Path, Node>, d: nat)
    ensures |Deeper(nodes, d + 1)| <= |Deeper(nodes, d)|
  {
    SubsetSize(Deeper(nodes, d + 1), Deeper(nodes, d));
  }

  /** `collect_retain_well`: two rows a round, until a round leaves no row. Every node at or below `n` is met once. */
  method CollectRetainWell(db: DbTree, n: Node, vec0: seq<Msg>) returns (vec: seq<Msg>, ghost hits: seq<Node>)
    requires db.Valid() && n.path in db.nodes && db.nodes[n.path] == n
    ensures vec == vec0 + MessagesAt(hits) && Subtree(db.nodes, n.path, hits)
  {
    hide DbTree.Valid, KidsOf, MessagesAt, Row, Above, Linked;
    db.PathsOf();
    db.ShapeOf();
    var nodes, nodesT: seq<Node> := [n], [];
    ghost var q, d := n.path, |n.path|;
    vec, hits := vec0, [];
    NoMessages();
    assert vec0 + [] == vec0;
    RowFirst(db, n);
    while nodes != []
      invariant |q| <= d && Row(db.nodes, q, d, nodes) && Above(db.nodes, q, d, hits) && vec == vec0 + MessagesAt(hits)
      decreases |Deeper(db.nodes, d)|
    {
      RowHas(db.nodes, q, d, nodes);
      DeeperShrinks(db.nodes, d, nodes[0]);
      DeeperLess(db.nodes, d + 1);
      nodesT, vec, hits := SweepRow(db, q, d, nodes, vec0, vec, hits);
      RowHas(db.nodes, q, d + 1, nodesT);
      nodes, vec, hits := SweepRow(db, q, d + 1, nodesT, vec0, vec, hits);
      nodesT := [];
      d := d + 2;
    }
    RowsDone(db, q, d, hits);
  }

  /** One row of the sweep, with what has been gathered above it. */
  method SweepRow(db: DbTree, ghost q: Path, ghost d: nat, buf: seq<Node>, ghost vec0: seq<Msg>, vec1: seq<Msg>,
                  ghost hits1: seq<Node>)
    returns (next: seq<Node>, vec: seq<Msg>, ghost hits: seq<Node>)
    requires db.Valid() && |q| <= d && Row(db.nodes, q, d, buf) && Above(db.nodes, q, d, hits1) &&
      vec1 == vec0 + MessagesAt(hits1)
    ensures Row(db.nodes, q, d + 1, next) && Above(db.nodes, q, d + 1, hits) && vec == vec0 + MessagesAt(hits)
  {
    hide DbTree.Valid, KidsOf, MessagesAt, Row, Above;
    db.PathsOf();
    db.ShapeOf();
    RowHas(db.nodes, q, d, buf);
    next, vec := Sweep(db, buf, vec1, d);
    hits := hits1 + buf;
    RowStep(db.nodes, q, d, buf, next);
    AboveStep(db.nodes, q, d, hits1, buf);
    MessagesMore(vec0, hits1, buf);
  }

  lemma MessagesMore(vec: seq<Msg>, a: seq<Node>, b: seq<Node>)
    ensures (vec + MessagesAt(a)) + MessagesAt(b) == vec + MessagesAt(a + b)
  {
    hide MessagesAt;
    MessagesAppend(a, b);
    assert (vec + MessagesAt(a)) + MessagesAt(b) == vec + (MessagesAt(a) + MessagesAt(b));
  }

  lemma RowHas(nodes: map<Path, Node>, q: Path, d: nat, buf: seq<Node>)
    requires Row(nodes, q, d, buf)
    ensures InTree(nodes, buf) && Distinct(buf) && (buf != [] ==> buf[0].path in nodes && |buf[0].path| == d)
    ensures Broad(buf) && forall c :: c in buf ==> |c.path| == d
  {
    assert buf != [] ==> buf[0] in buf;
  }

  lemma RowFirst(db: DbTree, n: Node)
    requires db.Shape() && n.path in db.nodes && db.nodes[n.path] == n
    ensures Row(db.nodes, n.path, |n.path|, [n]) && Above(db.nodes, n.path, |n.path|, [])
  {
    assert forall p: Path :: n.path <= p && |p| == |n.path| ==> p == n.path;
  }

  lemma RowsDone(db: DbTree, q: Path, d: nat, hits: seq<Node>)
    requires db.Shape() && |q| <= d && Row(db.nodes, q, d, []) && Above(db.nodes, q, d, hits)
    ensures Subtree(db.nodes, q, hits)
  {
    forall p | p in db.nodes && q <= p ensures |p| < d {
      if |p| >= d {
        NotInRow(db.nodes, q, d, p[..d]);
        db.PrefixClosed(p, d);
      }
    }
  }

  lemma NotInRow(nodes: map<Path, Node>, q: Path, d: nat, p: Path)
    requires Row(nodes, q, d, [])
    ensures q <= p && |p| == d ==> p !in nodes
  {
  }

  method Messages(h: seq<Node>) returns (ms: seq<Msg>)
    ensures ms == MessagesAt(h)
  {
    ms := [];
    for i := 0 to |h|
      invariant ms == MessagesAt(h[..i])
    {
      assert h[..i + 1][..i] == h[..i];
      if h[i].retain != NULL { ms := ms + [h[i].retain]; }
    }
    assert h[..|h|] == h;
  }

  lemma NoMessages()
    ensures MessagesAt([]) == []
  {
  }

  /** The first level that is `#`, or the number of levels. */
  function FirstWell(f: Path): (k: nat)
    ensures k <= |f| && (k < |f| ==> f[k] == WELL) && forall i :: 0 <= i < k ==> f[i] != WELL
  {
    if f == [] || f[0] == WELL then 0 else 1 + FirstWell(f[1..])
  }

  /** Some node lies below `q`. */
  ghost predicate Inner(nodes: map<Path, Node>, q: Path) { exists u {:trigger Kid(q, u)} :: Kid(q, u) in nodes }

  lemma InnerIff(db: DbTree, n: Node)
    requires db.Shape() && n.path in db.nodes && db.nodes[n.path] == n
    ensures Inner(db.nodes, n.path) <==> n.child != []
  {
    hide Linked;
    if n.child == [] { NoKids(db, n); } else { db.FirstKid(n); }
  }

  /**
   * What a retained lookup goes by. A `#` takes everything at and below the nodes that the levels before
   * it allow, if something lies below them; so, other than in a publish, it takes the parent level too.
   */
  ghost predicate LookedUp(nodes: map<Path, Node>, f: Path, p: Path) {
    var k := FirstWell(f);
    if k == |f| then Matches(f, p) else |p| >= k && Allowed(f, p[..k]) && Inner(nodes, p[..k])
  }

  /** The nodes below which a lookup that has come to a `#` may sweep. */
  ghost function Parents(nodes: map<Path, Node>, buf: seq<Node>): set<Path> {
    set c | c in buf && Inner(nodes, c.path) :: c.path
  }

  /** `hits` lists, once each, exactly the nodes at or below one of the roots. */
  ghost predicate Swept(nodes: map<Path, Node>, roots: set<Path>, hits: seq<Node>) {
    && InTree(nodes, hits) && Distinct(hits)
    && (forall c :: c in hits ==> exists q :: q in roots && q <= c.path)
    && (forall p, q :: p in nodes && q in roots && q <= p ==> nodes[p] in hits)
  }

  /** Which parents are swept: all of them, or as written the last one in the buffer, if there is one. */
  ghost predicate Chosen(parents: set<Path>, roots: set<Path>, all: bool) {
    && roots <= parents
    && (if all then roots == parents else |roots| <= 1 && (roots == {} ==> parents == {}))
    && (!all ==> forall p, q :: p in parents && q in roots && p != q && |p| == |q| ==> !Left(q, p))
  }

  lemma SweptMore(nodes: map<Path, Node>, roots: set<Path>, hits: seq<Node>, q: Path, more: seq<Node>)
    requires Swept(nodes, roots, hits) && Subtree(nodes, q, more) && q !in roots
    requires forall r :: r in roots ==> |r| == |q|
    ensures Swept(nodes, roots + {q}, hits + more)
  {
    var h := hits + more;
    assert forall c :: c in h <==> c in hits || c in more;
    forall i, j | 0 <= i < j < |h| ensures h[i] != h[j] {
      if i < |hits| <= j {
        assert h[i] in hits && h[j] in more;
        var r :| r in roots && r <= h[i].path;
        assert r != q && r == h[i].path[..|q|] && q == h[j].path[..|q|];
      } else if |hits| <= i {
        assert h[i] == more[i - |hits|] && h[j] == more[j - |hits|];
      }
    }
  }

  lemma ParentsSnoc(nodes: map<Path, Node>, n: Node, rest: seq<Node>)
    ensures Parents(nodes, [n] + rest) == Parents(nodes, rest) + (if Inner(nodes, n.path) then {n.path} else {})
  {
    hide Inner;
    assert forall c :: c in [n] + rest <==> c == n || c in rest;
  }

  /** The nodes of `buf` from `m` on have been looked at, and the parents among them swept. */
  ghost predicate Sweeping(nodes: map<Path, Node>, buf: seq<Node>, m: nat, roots: set<Path>, hits: seq<Node>) {
    m <= |buf| && Swept(nodes, roots, hits) && roots == Parents(nodes, buf[m..])
  }

  lemma SweepingStep(nodes: map<Path, Node>, buf: seq<Node>, m: nat, d: nat, roots: set<Path>, hits: seq<Node>,
                     more: seq<Node>)
    requires m < |buf| && Sweeping(nodes, buf, m + 1, roots, hits) && InTree(nodes, buf) && Distinct(buf)
    requires forall c :: c in buf ==> |c.path| == d
    ensures !Inner(nodes, buf[m].path) ==> Sweeping(nodes, buf, m, roots, hits)
    ensures Inner(nodes, buf[m].path) && Subtree(nodes, buf[m].path, more) ==>
      Sweeping(nodes, buf, m, roots + {buf[m].path}, hits + more)
    ensures Inner(nodes, buf[m].path) ==> buf[m].path in Parents(nodes, buf)
  {
    hide Swept, Inner, Subtree;
    var n, rest := buf[m], buf[m + 1..];
    assert buf[m..] == [n] + rest && n in buf;
    ParentsSnoc(nodes, n, rest);
    TailApart(nodes, buf, m);
    forall r | r in roots ensures |r| == d && r in Paths(rest) {
      var c :| c in rest && c.path == r;
      assert c in buf;
    }
    if Inner(nodes, n.path) && Subtree(nodes, n.path, more) { SweptMore(nodes, roots, hits, n.path, more); }
  }

  /** `collect_retains` at a `#`. As written (`all` false) the loop ends after the first node that has children. */
  method CollectWell(db: DbTree, nodes0: seq<Node>, vec0: seq<Msg>, all: bool, ghost d: nat)
    returns (rest: seq<Node>, vec: seq<Msg>, ghost roots: set<Path>, ghost hits: seq<Node>)
    requires db.Valid() && RowAt(db.nodes, d, nodes0)
    ensures rest <= nodes0 && (all ==> rest == []) && (!all ==> Broad(hits))
    ensures vec == vec0 + MessagesAt(hits) && Swept(db.nodes, roots, hits) &&
      Chosen(Parents(db.nodes, nodes0), roots, all)
  {
    hide DbTree.Valid, MessagesAt, Swept, Parents, Inner, Subtree, Sweeping, Broad, InRow, Chosen;
    db.ShapeOf();
    NoneBroad();
    rest, vec, roots, hits := nodes0, vec0, {}, [];
    SweepingStart(db.nodes, nodes0, vec0);
    while rest != []
      invariant rest <= nodes0 && vec == vec0 + MessagesAt(hits) && Sweeping(db.nodes, nodes0, |rest|, roots, hits)
      invariant !all ==> roots == {} && hits == []
    {
      var n := rest[|rest| - 1];
      assert n in nodes0;
      rest := rest[..|rest| - 1];
      InnerIff(db, n);
      if n.child == [] {
        SweepingStep(db.nodes, nodes0, |rest|, d, roots, hits, []);
        continue;
      }
      ghost var more;
      vec, more := CollectRetainWell(db, n, vec);
      MessagesMore(vec0, hits, more);
      SweepingStep(db.nodes, nodes0, |rest|, d, roots, hits, more);
      assert hits == [] ==> hits + more == more;
      roots, hits := roots + {n.path}, hits + more;
      if !all {
        SubtreeBroad(db.nodes, n.path, more);
        OneChosen(db.nodes, nodes0, |rest|, d, roots, hits);
        return;
      }
    }
    SweepingEnd(db.nodes, nodes0, roots, hits, all);
  }

  lemma SweepingStart(nodes: map<Path, Node>, buf: seq<Node>, vec: seq<Msg>)
    ensures Sweeping(nodes, buf, |buf|, {}, []) && vec == vec + MessagesAt([])
  {
    assert buf[|buf|..] == [];
  }

  lemma SweepingEnd(nodes: map<Path, Node>, buf: seq<Node>, roots: set<Path>, hits: seq<Node>, all: bool)
    requires Sweeping(nodes, buf, 0, roots, hits) && (!all ==> roots == {})
    ensures Swept(nodes, roots, hits) && Chosen(Parents(nodes, buf), roots, all)
  {
    assert buf[0..] == buf;
  }

  lemma OneChosen(nodes: map<Path, Node>, buf: seq<Node>, m: nat, d: nat, roots: set<Path>, hits: seq<Node>)
    requires RowAt(nodes, d, buf) && m < |buf| && Sweeping(nodes, buf, m, roots, hits) && roots == {buf[m].path}
    requires buf[m].path in Parents(nodes, buf)
    ensures Swept(nodes, roots, hits) && Chosen(Parents(nodes, buf), roots, false)
  {
    hide Swept, Left, Inner;
    var q := buf[m].path;
    forall p | p in Parents(nodes, buf) && p != q ensures |p| == |q| && !Left(q, p) {
      var c :| c in buf && Inner(nodes, c.path) && c.path == p;
      var i :| 0 <= i < |buf| && buf[i] == c;
      assert buf[m] in buf;
      ParentAfter(nodes, buf, m, i);
    }
  }

  lemma ParentAfter(nodes: map<Path, Node>, buf: seq<Node>, m: nat, i: nat)
    requires m <= |buf| && i < |buf| && Inner(nodes, buf[i].path)
    ensures i >= m ==> buf[i].path in Parents(nodes, buf[m..])
  {
    hide Inner;
    if i >= m { assert buf[m..][i - m] == buf[i]; }
  }

  lemma SubtreeBroad(nodes: map<Path, Node>, q: Path, hits: seq<Node>)
    requires Subtree(nodes, q, hits)
    ensures Broad(hits)
  {
  }

  /** The nodes that the levels before the first `#` lead to, if something lies below them. */
  ghost function AllParents(nodes: map<Path, Node>, f: Path): set<Path> {
    var w := FirstWell(f);
    set p | p in nodes && |p| == w && Allowed(f, p) && Inner(nodes, p)
  }

  lemma ReachedParents(nodes: map<Path, Node>, f: Path, buf: seq<Node>)
    requires Reached(nodes, f, FirstWell(f), buf) && forall p :: p in nodes ==> nodes[p].path == p
    ensures Parents(nodes, buf) == AllParents(nodes, f)
  {
    hide Inner, FirstWell, Allowed;
  }

  /** One row of the walk: all its nodes at depth `d`, in order. */
  ghost predicate RowAt(nodes: map<Path, Node>, d: nat, buf: seq<Node>) {
    InTree(nodes, buf) && Distinct(buf) && InRow(buf) && forall c :: c in buf ==> |c.path| == d
  }

  /**
   * The walk before level `k`. Up to the first `#` the buffer holds what the levels lead to; there the
   * chosen parents are swept, and unless nodes are left over nothing follows.
   */
  ghost predicate Walking(nodes: map<Path, Node>, f: Path, k: nat, all: bool, d: nat, buf: seq<Node>, rets: seq<Msg>,
                          roots: set<Path>, hits: seq<Node>) reads hits {
    var w := FirstWell(f);
    && k <= |f| && RowAt(nodes, d, buf)
    && (k <= w && k < |f| ==> d == k && Reached(nodes, f, k, buf) && rets == [] && roots == {} && hits == [])
    && (k <= w && k == |f| ==> Reached(nodes, f, k, hits) && InRow(hits) && rets == MessagesAt(hits))
    && (w < k ==> Swept(nodes, roots, hits) && Chosen(AllParents(nodes, f), roots, all) && (!all ==> Broad(hits)))
    && (w < k && (all || w == |f| - 1) ==> rets == MessagesAt(hits))
    && (w < k && all ==> buf == [])
  }

  /** `collect_retains`: one level of the lookup, with the nodes it leaves over. */
  method CollectRetains(db: DbTree, buf: seq<Node>, f: Path, k: nat, rets0: seq<Msg>, all: bool,
                        ghost d: nat, ghost roots0: set<Path>, ghost hits0: seq<Node>)
    returns (rest: seq<Node>, next: seq<Node>, rets: seq<Msg>, ghost roots: set<Path>, ghost hits: seq<Node>)
    requires db.Valid() && k < |f| && Walking(db.nodes, f, k, all, d, buf, rets0, roots0, hits0)
    ensures Walking(db.nodes, f, k + 1, all, d + 1, next, rets, roots, hits) && RowAt(db.nodes, d, rest)
    ensures rest != [] ==> !all && FirstWell(f) <= k && next == []
    ensures buf == [] ==> rest == [] && next == []
  {
    hide DbTree.Valid, MessagesAt, KidsOf, Reached, FirstWell, AllParents, Parents, Swept, Chosen, Left, Broad;
    WalkingRow(db.nodes, f, k, all, d, buf, rets0, roots0, hits0);
    if f[k] == WELL {
      ghost var r, h;
      rest, rets, r, h := CollectWell(db, buf, rets0, all, d);
      next := [];
      roots, hits := WalkedWell(db, f, k, all, d, buf, rets0, roots0, hits0, rets, r, h);
    } else {
      ghost var kids;
      next, rets, kids := CollectNamed(db, buf, f, k, rets0, d);
      rest := [];
      roots, hits := WalkedNamed(db, f, k, all, d, buf, rets0, roots0, hits0, next, rets, kids);
    }
  }

  lemma WalkingRow(nodes: map<Path, Node>, f: Path, k: nat, all: bool, d: nat, buf: seq<Node>, rets: seq<Msg>,
                   roots: set<Path>, hits: seq<Node>)
    requires Walking(nodes, f, k, all, d, buf, rets, roots, hits)
    ensures RowAt(nodes, d, buf)
  {
  }

  lemma WalkedWell(db: DbTree, f: Path, k: nat, all: bool, d: nat, buf: seq<Node>, rets0: seq<Msg>, roots0: set<Path>,
                   hits0: seq<Node>, rets: seq<Msg>, r: set<Path>, h: seq<Node>)
    returns (roots: set<Path>, hits: seq<Node>)
    requires db.Valid() && k < |f| && f[k] == WELL && Walking(db.nodes, f, k, all, d, buf, rets0, roots0, hits0)
    requires rets == rets0 + MessagesAt(h) && Swept(db.nodes, r, h) && Chosen(Parents(db.nodes, buf), r, all)
    requires !all ==> Broad(h)
    ensures Walking(db.nodes, f, k + 1, all, d + 1, [], rets, roots, hits) && FirstWell(f) <= k
  {
    hide DbTree.Valid, MessagesAt, Reached, FirstWell, AllParents, Parents, Swept, Chosen, Broad;
    WellFirst(f, k);
    db.PathsOf();
    if k == FirstWell(f) {
      roots, hits := r, h;
      ReachedParents(db.nodes, f, buf);
      assert [] + MessagesAt(h) == MessagesAt(h);
    } else {
      roots, hits := roots0, hits0;
      if all {
        NoneChosen(db.nodes, r, h);
        assert rets0 + [] == rets0;
      }
    }
  }

  lemma WellFirst(f: Path, k: nat)
    requires k < |f| && f[k] == WELL
    ensures FirstWell(f) <= k
  {
  }

  lemma NoneChosen(nodes: map<Path, Node>, r: set<Path>, h: seq<Node>)
    requires Swept(nodes, r, h) && Chosen(Parents(nodes, []), r, true)
    ensures h == [] && MessagesAt(h) == []
  {
    assert Parents(nodes, []) == {};
    if h != [] { HeadUnswept(nodes, h); }
  }

  lemma HeadUnswept(nodes: map<Path, Node>, h: seq<Node>)
    requires h != []
    ensures !Swept(nodes, {}, h)
  {
    assert h[0] in h;
  }

  lemma WalkedNamed(db: DbTree, f: Path, k: nat, all: bool, d: nat, buf: seq<Node>, rets0: seq<Msg>, roots0: set<Path>,
                    hits0: seq<Node>, next: seq<Node>, rets: seq<Msg>, kids: seq<Node>)
    returns (roots: set<Path>, hits: seq<Node>)
    requires db.Valid() && k < |f| && f[k] != WELL && Walking(db.nodes, f, k, all, d, buf, rets0, roots0, hits0)
    requires KidsOf(db.nodes, Paths(buf), ByFilter(f[k]), kids) && InRow(kids)
    requires k + 1 < |f| ==> next == kids && rets == rets0
    requires k + 1 == |f| ==> next == [] && rets == rets0 + MessagesAt(kids)
    ensures Walking(db.nodes, f, k + 1, all, d + 1, next, rets, roots, hits) && (buf == [] ==> next == [])
  {
    hide DbTree.Valid, MessagesAt, Reached, FirstWell, AllParents, Swept, Chosen, KidsOf, Left, Broad;
    db.PathsOf();
    db.ShapeOf();
    KidsRow(db.nodes, d, buf, f[k], kids);
    roots, hits := roots0, hits0;
    NotFirst(f, k);
    if k < FirstWell(f) {
      ReachedStep(db.nodes, f, k, buf, kids);
      if k + 1 == |f| {
        hits := kids;
        assert [] + MessagesAt(kids) == MessagesAt(kids);
      }
    } else if all {
      NoMessages();
      assert rets0 + [] == rets0;
    }
  }

  lemma NotFirst(f: Path, k: nat)
    requires k < |f| && f[k] != WELL
    ensures FirstWell(f) != k && FirstWell(f) <= |f|
  {
  }

  lemma KidsRow(nodes: map<Path, Node>, d: nat, buf: seq<Node>, level: string, kids: seq<Node>)
    requires RowAt(nodes, d, buf) && KidsOf(nodes, Paths(buf), ByFilter(level), kids) && InRow(kids)
    ensures RowAt(nodes, d + 1, kids) && (buf == [] ==> kids == [])
  {
    hide Left;
    forall c | c in kids ensures |c.path| == d + 1 && buf != [] {
      var b :| b in buf && b.path == Parent(c.path);
    }
    assert kids != [] ==> kids[0] in kids;
  }

  /** The alternating walk of `dbtree_find_retain`. */
  method WalkRetains(db: DbTree, f: Path, all: bool)
    returns (rets: seq<Msg>, ghost roots: set<Path>, ghost hits: seq<Node>)
    requires db.Valid() && f != []
    ensures FirstWell(f) == |f| ==> Reached(db.nodes, f, |f|, hits) && InRow(hits) && rets == MessagesAt(hits)
    ensures FirstWell(f) < |f| ==> Swept(db.nodes, roots, hits) && Chosen(AllParents(db.nodes, f), roots, all)
    ensures FirstWell(f) < |f| && !all ==> Broad(hits)
    ensures FirstWell(f) < |f| && (all || FirstWell(f) == |f| - 1) ==> rets == MessagesAt(hits)
  {
    hide DbTree.Valid, MessagesAt, Walking, Reached, FirstWell, AllParents, Swept, Chosen, RowAt, Broad, InRow;
    NoneBroad();
    rets, roots, hits := [], {}, [];
    if db.root.child == [] {
      NothingThere(db, f, all);
      return;
    }
    var nodes: seq<Node>, nodesT: seq<Node> := [db.root], [];
    var k := 0;
    ghost var d := 0;
    WalkStart(db, f, all);
    while k < |f| && nodes != []
      invariant k <= |f| && Walking(db.nodes, f, k, all, d, nodes, rets, roots, hits)
      decreases |f| - k
    {
      nodes, nodesT, rets, roots, hits := CollectRetains(db, nodes, f, k, rets, all, d, roots, hits);
      ghost var left := nodes;
      k := k + 1;
      if k == |f| {
        WalkEnd(db, f, k, all, d + 1, nodesT, rets, roots, hits);
        return;
      }
      var more;
      ghost var k1 := k;
      nodesT, more, rets, roots, hits := CollectRetains(db, nodesT, f, k, rets, all, d + 1, roots, hits);
      nodes := nodes + more;
      k := k + 1;
      if left != [] {
        LeftOver(db.nodes, f, k, all, d, left, rets, roots, hits, d + 2);
        assert left + [] == left;
      } else {
        assert [] + more == more;
        d := d + 2;
      }
    }
    WalkEnd(db, f, k, all, d, nodes, rets, roots, hits);
  }

  /** Nodes left over after a `#` take the place of the empty buffer. */
  lemma LeftOver(nodes: map<Path, Node>, f: Path, k: nat, all: bool, d: nat, left: seq<Node>, rets: seq<Msg>,
                 roots: set<Path>, hits: seq<Node>, d': nat)
    requires Walking(nodes, f, k, all, d', [], rets, roots, hits) && RowAt(nodes, d, left) && !all && FirstWell(f) < k
    ensures Walking(nodes, f, k, all, d, left, rets, roots, hits)
  {
  }

  lemma WalkStart(db: DbTree, f: Path, all: bool)
    requires db.Valid() && f != []
    ensures Walking(db.nodes, f, 0, all, 0, [db.root], [], {}, [])
  {
    hide DbTree.Valid, Linked;
    db.PathsOf();
    db.ShapeOf();
    Begin(db, f);
    db.RootPath();
  }

  lemma NothingThere(db: DbTree, f: Path, all: bool)
    requires db.Valid() && f != [] && db.root.child == []
    ensures Reached(db.nodes, f, |f|, []) && Swept(db.nodes, {}, []) &&
      Chosen(AllParents(db.nodes, f), {}, all) && MessagesAt([]) == []
  {
    hide DbTree.Valid, Linked, Reached;
    db.PathsOf();
    db.ShapeOf();
    db.RootPath();
    Begin(db, f);
    InnerIff(db, db.root);
    forall p ensures p !in AllParents(db.nodes, f) {
      if p != [] {
        assert p[..0] == [];
        db.LeafMissing(p, 0);
      }
    }
  }

  /** A walk that is over, or out of nodes, has found all that it is going to find. */
  lemma WalkEnd(db: DbTree, f: Path, k: nat, all: bool, d: nat, buf: seq<Node>, rets: seq<Msg>, roots: set<Path>,
                hits: seq<Node>)
    requires db.Valid() && Walking(db.nodes, f, k, all, d, buf, rets, roots, hits) && (k == |f| || buf == [])
    ensures FirstWell(f) == |f| ==> Reached(db.nodes, f, |f|, hits) && InRow(hits) && rets == MessagesAt(hits)
    ensures FirstWell(f) < |f| ==> Swept(db.nodes, roots, hits) && Chosen(AllParents(db.nodes, f), roots, all)
    ensures FirstWell(f) < |f| && !all ==> Broad(hits)
    ensures FirstWell(f) < |f| && (all || FirstWell(f) == |f| - 1) ==> rets == MessagesAt(hits)
  {
    hide DbTree.Valid, Linked, FirstWell, Reached, Swept, AllParents, Chosen, Broad, InRow;
    NoneBroad();
    var w := FirstWell(f);
    if k < |f| && k <= w {
      db.ShapeOf();
      db.PathsOf();
      NothingFurther(db, f, k, w);
      NoneSwept(db.nodes, f, all);
    }
  }

  lemma NoneSwept(nodes: map<Path, Node>, f: Path, all: bool)
    requires Reached(nodes, f, FirstWell(f), []) && forall p :: p in nodes ==> nodes[p].path == p
    ensures Swept(nodes, {}, []) && Chosen(AllParents(nodes, f), {}, all) && MessagesAt([]) == []
  {
    hide FirstWell, Reached, AllParents;
    ReachedParents(nodes, f, []);
    assert Parents(nodes, []) == {};
  }

  /** `p` lies at or below one of the roots. */
  ghost predicate Under(roots: set<Path>, p: Path) { exists q :: q in roots && q <= p }

  /** The messages are those retained at or below the roots. */
  ghost predicate AllUnder(retained: map<Path, Msg>, roots: set<Path>, rets: seq<Msg>) {
    forall m :: m in rets <==> exists p :: p in retained && Under(roots, p) && retained[p] == m
  }

  /**
   * `dbtree_find_retain`. It returns the messages at the nodes found, each once: those that the filter looks
   * up, if it holds no `#` or if the loop of `collect_retains` went through all nodes at a `#`. As written,
   * with a `#` at the end, it returns those at or below the one parent chosen, the last one in the buffer, and
   * finds all of them if and only if at most one parent is to be swept.
   */
  method FindRetain(db: DbTree, filter: string, all: bool) returns (rets: seq<Msg>, ghost hits: seq<Node>)
    requires db.Valid()
    ensures InTree(db.nodes, hits) && Distinct(hits)
    ensures forall p :: p in db.nodes && db.nodes[p] in hits ==> LookedUp(db.nodes, Split(filter), p)
    ensures all || FirstWell(Split(filter)) >= |Split(filter)| - 1 ==> rets == MessagesAt(hits)
    ensures FirstWell(Split(filter)) == |Split(filter)| ==> InRow(hits)
    ensures FirstWell(Split(filter)) < |Split(filter)| && !all ==> Broad(hits)
    ensures FirstWell(Split(filter)) < |Split(filter)| ==>
      exists roots ::
        && Swept(db.nodes, roots, hits) && Chosen(AllParents(db.nodes, Split(filter)), roots, all)
        && (all || FirstWell(Split(filter)) == |Split(filter)| - 1 ==> AllUnder(db.flat.retained, roots, rets))
    ensures (forall p :: p in db.nodes && LookedUp(db.nodes, Split(filter), p) ==> db.nodes[p] in hits) <==>
            all || FirstWell(Split(filter)) == |Split(filter)| || |AllParents(db.nodes, Split(filter))| <= 1
    ensures all || FirstWell(Split(filter)) == |Split(filter)| ==>
      forall m :: m in rets <==>
        exists p :: p in db.flat.retained && LookedUp(db.nodes, Split(filter), p) && db.flat.retained[p] == m
  {
    hide DbTree.Valid, MessagesAt, LookedUp, Reached, FirstWell, AllParents, Swept, Chosen, SplitFrom, AllUnder;
    hide Broad, InRow;
    var f := TopicParse(filter);
    ghost var roots;
    rets, roots, hits := WalkRetains(db, f, all);
    FoundIff(db, f, all, roots, hits);
    if FirstWell(f) < |f| { RetainedUnder(db, roots, hits); }
    if all || FirstWell(f) == |f| {
      forall m
        ensures m in rets <==> exists p :: p in db.flat.retained && LookedUp(db.nodes, f, p) && db.flat.retained[p] == m
      {
        RetainedAt(db, hits, m);
      }
    }
  }

  lemma FoundIff(db: DbTree, f: Path, all: bool, roots: set<Path>, hits: seq<Node>)
    requires db.Valid() && f != []
    requires FirstWell(f) == |f| ==> Reached(db.nodes, f, |f|, hits)
    requires FirstWell(f) < |f| ==> Swept(db.nodes, roots, hits) && Chosen(AllParents(db.nodes, f), roots, all)
    ensures InTree(db.nodes, hits) && Distinct(hits)
    ensures forall p :: p in db.nodes && db.nodes[p] in hits ==> LookedUp(db.nodes, f, p)
    ensures (forall p :: p in db.nodes && LookedUp(db.nodes, f, p) ==> db.nodes[p] in hits) <==>
            all || FirstWell(f) == |f| || |AllParents(db.nodes, f)| <= 1
  {
    hide DbTree.Valid, LookedUp, Reached, Swept, FirstWell, AllParents, Chosen;
    if FirstWell(f) == |f| {
      db.PathsOf();
      ReachedInTree(db.nodes, f, |f|, hits);
      forall p | p in db.nodes ensures LookedUp(db.nodes, f, p) <==> db.nodes[p] in hits {
        ReachedIsMatched(db, f, p, hits);
      }
    } else {
      FoundBelow(db, f, all, roots, hits);
    }
  }

  lemma FoundBelow(db: DbTree, f: Path, all: bool, roots: set<Path>, hits: seq<Node>)
    requires db.Valid() && FirstWell(f) < |f| && Swept(db.nodes, roots, hits) &&
      Chosen(AllParents(db.nodes, f), roots, all)
    ensures InTree(db.nodes, hits) && Distinct(hits)
    ensures forall p :: p in db.nodes && db.nodes[p] in hits ==> LookedUp(db.nodes, f, p)
    ensures (forall p :: p in db.nodes && LookedUp(db.nodes, f, p) ==> db.nodes[p] in hits) <==>
      all || |AllParents(db.nodes, f)| <= 1
  {
    hide DbTree.Valid, LookedUp, Swept, FirstWell, AllParents, Chosen, Under;
    db.PathsOf();
    SweptHas(db.nodes, roots, hits);
    forall p | p in db.nodes
      ensures db.nodes[p] in hits <==> Under(roots, p)
      ensures LookedUp(db.nodes, f, p) <==> Under(AllParents(db.nodes, f), p)
      ensures Under(roots, p) ==> Under(AllParents(db.nodes, f), p)
    {
      SweptIs(db.nodes, roots, hits, p);
      WellLookedUp(db, f, p);
      UnderSome(AllParents(db.nodes, f), roots, all, p);
    }
    AllOrOne(db.nodes, f, roots, all);
  }

  lemma UnderSome(parents: set<Path>, roots: set<Path>, all: bool, p: Path)
    requires Chosen(parents, roots, all)
    ensures Under(roots, p) ==> Under(parents, p)
  {
  }

  lemma SweptHas(nodes: map<Path, Node>, roots: set<Path>, hits: seq<Node>)
    requires Swept(nodes, roots, hits)
    ensures InTree(nodes, hits) && Distinct(hits)
  {
  }

  lemma SweptIs(nodes: map<Path, Node>, roots: set<Path>, hits: seq<Node>, p: Path)
    requires Swept(nodes, roots, hits) && p in nodes && nodes[p].path == p
    ensures nodes[p] in hits <==> Under(roots, p)
  {
  }

  lemma WellLookedUp(db: DbTree, f: Path, p: Path)
    requires db.Valid() && p in db.nodes && FirstWell(f) < |f|
    ensures LookedUp(db.nodes, f, p) <==> Under(AllParents(db.nodes, f), p)
  {
    hide DbTree.Valid, Linked, Inner, FirstWell, Allowed;
    db.ShapeOf();
    var w := FirstWell(f);
    if LookedUp(db.nodes, f, p) {
      db.PrefixClosed(p, w);
      assert p[..w] in AllParents(db.nodes, f) && p[..w] <= p;
    }
    forall q | q in AllParents(db.nodes, f) && q <= p ensures q == p[..w] {}
  }

  /** Sweeping some of the parents meets everything if and only if it is all of them. */
  lemma AllOrOne(nodes: map<Path, Node>, f: Path, roots: set<Path>, all: bool)
    requires Chosen(AllParents(nodes, f), roots, all)
    ensures (forall p :: p in nodes && Under(AllParents(nodes, f), p) ==> Under(roots, p)) <==>
      all || |AllParents(nodes, f)| <= 1
  {
    hide FirstWell, Inner, Allowed;
    var parents := AllParents(nodes, f);
    if all || |parents| <= 1 {
      if !all { OneOrNone(parents, roots); }
    } else {
      OneLeft(parents, roots);
      var q :| q in parents && q !in roots;
      assert q in nodes && Under(parents, q);
      forall r | r in roots ensures !(r <= q) { assert |r| == |q| && (r <= q ==> r == q); }
    }
  }

  lemma OneOrNone(parents: set<Path>, roots: set<Path>)
    requires roots <= parents && |parents| <= 1 && |roots| <= 1 && (roots == {} ==> parents == {})
    ensures roots == parents
  {
    if roots != {} {
      var q :| q in roots;
      SubsetSize(parents - {q}, parents - {q});
      assert |parents - {q}| == 0;
    }
  }

  lemma OneLeft(parents: set<Path>, roots: set<Path>)
    requires |parents| > 1 && |roots| <= 1
    ensures exists q :: q in parents && q !in roots
  {
    if parents <= roots { SubsetSize(parents, roots); }
  }

  lemma ReachedInTree(nodes: map<Path, Node>, f: Path, k: nat, buf: seq<Node>)
    requires k <= |f| && Reached(nodes, f, k, buf)
    ensures InTree(nodes, buf) && Distinct(buf)
  {
  }

  lemma ReachedIsMatched(db: DbTree, f: Path, p: Path, hits: seq<Node>)
    requires f != [] && FirstWell(f) == |f| && p in db.nodes && db.nodes[p].path == p && Reached(db.nodes, f, |f|, hits)
    ensures LookedUp(db.nodes, f, p) <==> db.nodes[p] in hits
  {
    assert f[|f| - 1] != WELL;
    if |p| == |f| { assert Allowed(f, p) <==> LevelsMatch(f, p); }
  }

  lemma {:induction false} MessageFrom(s: seq<Node>, m: Msg)
    ensures m in MessagesAt(s) <==> m != NULL && exists c :: c in s && c.retain == m
  {
    if s != [] {
      var b, c := s[..|s| - 1], s[|s| - 1];
      MessageFrom(b, m);
      assert s == b + [c];
    }
  }

  lemma RetainedAt(db: DbTree, hits: seq<Node>, m: Msg)
    requires db.Valid() && InTree(db.nodes, hits)
    ensures forall p :: p in db.flat.retained ==> p in db.nodes
    ensures m in MessagesAt(hits) <==>
      exists p :: p in db.flat.retained && db.nodes[p] in hits && db.flat.retained[p] == m
  {
    hide Linked;
    MessageFrom(hits, m);
    if m != NULL && exists c :: c in hits && c.retain == m {
      var c :| c in hits && c.retain == m;
      db.StoresAt(c);
      assert c.path in db.flat.retained;
    }
    if p :| p in db.flat.retained && db.nodes[p] in hits && db.flat.retained[p] == m {
      db.StoresAt(db.nodes[p]);
    }
  }

  lemma RetainedUnder(db: DbTree, roots: set<Path>, hits: seq<Node>)
    requires db.Valid() && Swept(db.nodes, roots, hits)
    ensures AllUnder(db.flat.retained, roots, MessagesAt(hits))
  {
    hide DbTree.Valid, MessagesAt, Swept, Under;
    db.PathsOf();
    SweptHas(db.nodes, roots, hits);
    forall m
      ensures m in MessagesAt(hits) <==>
        exists p :: p in db.flat.retained && Under(roots, p) && db.flat.retained[p] == m
    {
      RetainedAt(db, hits, m);
      forall p | p in db.flat.retained ensures db.nodes[p] in hits <==> Under(roots, p) {
        SweptIs(db.nodes, roots, hits, p);
      }
    }
  }

  lemma NothingFurther(db: DbTree, f: Path, k: nat, t: nat)
    requires db.Shape() && k <= t <= |f| && Reached(db.nodes, f, k, [])
    ensures Reached(db.nodes, f, t, [])
  {
    forall p | p in db.nodes && |p| == t && Allowed(f, p) ensures false {
      NotReached(db.nodes, f, k, p[..k]);
      db.PrefixClosed(p, k);
    }
  }

  lemma NotReached(nodes: map<Path, Node>, f: Path, k: nat, p: Path)
    requires k <= |f| && Reached(nodes, f, k, [])
    ensures |p| == k && Allowed(f, p) ==> p !in nodes
  {
  }

  lemma Begin(db: DbTree, f: Path)
    requires db.Valid() && f != []
    ensures Reached(db.nodes, f, 0, [db.root])
    ensures db.root.child == [] ==> Reached(db.nodes, f, |f|, [])
  {
    hide Linked;
    if db.root.child == [] {
      db.ShapeOf();
      forall p | p != [] ensures p !in db.nodes {
        assert p[..0] == [];
        db.LeafMissing(p, 0);
      }
    }
  }

  lemma RetainedInTree(db: DbTree)
    requires db.Valid()
    ensures forall p :: p in db.flat.retained ==> p in db.nodes
  {
    hide Linked, DbTree.Stores;
  }

  /** For a `#` at the end: what a publish would match, and the parent level if something lies below it. */
  lemma LookedUpIsMatched(db: DbTree, f: Path, p: Path)
    requires db.Valid() && p in db.nodes && f != [] && FirstWell(f) == |f| - 1
    ensures LookedUp(db.nodes, f, p) <==> Matches(f, p) || (|p| == |f| - 1 && Allowed(f, p) && Inner(db.nodes, p))
  {
    hide DbTree.Valid, Linked, FirstWell, Allowed, LevelsMatch;
    db.ShapeOf();
    var w := |f| - 1;
    if |p| == w {
      assert p[..w] == p;
    } else if |p| > w {
      AllowedMatches(f, p, w);
      PrefixStep(p, w);
      db.PrefixClosed(p, w + 1);
      assert Inner(db.nodes, p[..w]);
    }
  }

  lemma AllowedMatches(f: Path, p: Path, w: nat)
    requires w <= |f| && w <= |p|
    ensures Allowed(f, p[..w]) <==> LevelsMatch(f[..w], p)
  {
  }
}
