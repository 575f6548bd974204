/** Publishing: the two-buffer level walk (`collect_clients`, `search_client`) and the offline queues. */
module Publish {
  import opened Strings
  import opened Topics
  import opened Entries
  import opened Nodes
  import opened Tree
  import opened Dedup
  import opened Order

  /**
   * Which children a walk wants. While a publish looks at level `k` of topic `t`, `done` children
   * complete a match and the others are walked further; a retained lookup wants what its level allows.
   */
  datatype Want = ByTopic(t: Path, k: nat, done: bool) | ByFilter(level: string)

  predicate Wanted(w: Want, u: string) {
    match w
    case ByTopic(t, k, true) => k < |t| && (u == WELL || (k + 1 == |t| && LevelMatches(u, t[k])))
    case ByTopic(t, k, false) => k + 1 < |t| && LevelMatches(u, t[k])
    case ByFilter(level) => LevelMatches(level, u)
  }

  ghost predicate Distinct(s: seq<Node>) { forall i, j :: 0 <= i < j < |s| ==> s[i] != s[j] }

  /** The nodes in `s` are nodes of the tree. */
  ghost predicate InTree(nodes: map<Path, Node>, s: seq<Node>) {
    forall c :: c in s ==> c.path in nodes && nodes[c.path] == c
  }

  /** `s` lists, once each, exactly the wanted children of the nodes at paths in `from`. */
  ghost predicate KidsOf(nodes: map<Path, Node>, from: set<Path>, w: Want, s: seq<Node>) {
    && InTree(nodes, s) && Distinct(s)
    && (forall c :: c in s ==> c.path != [] && Parent(c.path) in from && Wanted(w, Last(c.path)))
    && (forall p, u {:trigger Kid(p, u)} :: p in from && Kid(p, u) in nodes && Wanted(w, u) ==> nodes[Kid(p, u)] in s)
  }

  /** Nodes of one depth, in the order of the walk. */
  ghost predicate InLine(d: nat, s: seq<Node>) {
    && (forall c :: c in s ==> |c.path| == d)
    && forall i, j :: 0 <= i < j < |s| && |s[i].path| == |s[j].path| ==> Ahead(s[i].path, s[j].path)
  }

  ghost function KidSeq(nodes: map<Path, Node>, p: Path, u: string): seq<Node> {
    if Kid(p, u) in nodes then [nodes[Kid(p, u)]] else []
  }

  ghost function KidList(nodes: map<Path, Node>, p: Path, names: seq<string>): seq<Node> {
    if names == [] then [] else KidSeq(nodes, p, names[0]) + KidList(nodes, p, names[1..])
  }

  ghost predicate Named(nodes: map<Path, Node>, p: Path, names: seq<string>, c: Node) {
    c.path in nodes && nodes[c.path] == c && c.path != [] && Parent(c.path) == p && Last(c.path) in names
  }

  lemma {:induction false} KidListExact(nodes: map<Path, Node>, p: Path, names: seq<string>)
    requires forall q :: q in nodes ==> nodes[q].path == q
    requires forall i, j :: 0 <= i < j < |names| ==> names[i] != names[j]
    ensures forall c :: c in KidList(nodes, p, names) <==> Named(nodes, p, names, c)
    ensures Distinct(KidList(nodes, p, names))
  {
    if names != [] {
      var u, rest := names[0], names[1..];
      KidListExact(nodes, p, rest);
      ParentOfKid(p, u);
      assert names == [u] + rest;
      forall c ensures c in KidSeq(nodes, p, u) <==> Named(nodes, p, [u], c) {
        if Named(nodes, p, [u], c) { KidOfParent(c.path); }
      }
      var h, r := KidSeq(nodes, p, u), KidList(nodes, p, rest);
      assert forall c :: c in h ==> !Named(nodes, p, rest, c);
      forall i, j | 0 <= i < j < |h + r| ensures (h + r)[i] != (h + r)[j] {
        assert (h + r)[j] in r;
        if i < |h| { assert (h + r)[i] in h; } else { assert (h + r)[i] == r[i - |h|]; }
      }
    }
  }

  /** Children listed by name, sooner names first. */
  lemma {:induction false} KidListLine(nodes: map<Path, Node>, p: Path, names: seq<string>)
    requires forall q :: q in nodes ==> nodes[q].path == q
    requires forall i, j :: 0 <= i < j < |names| ==> names[i] != names[j] && Sooner(names[i], names[j])
    ensures InLine(|p| + 1, KidList(nodes, p, names))
  {
    if names != [] {
      var u, rest := names[0], names[1..];
      KidListLine(nodes, p, rest);
      KidListExact(nodes, p, rest);
      var h, r := KidSeq(nodes, p, u), KidList(nodes, p, rest);
      ParentOfKid(p, u);
      forall c | c in r ensures h != [] ==> Ahead(h[0].path, c.path) {
        assert Named(nodes, p, rest, c);
      }
      forall i, j | 0 <= i < j < |h + r| ensures Ahead((h + r)[i].path, (h + r)[j].path) {
        assert (h + r)[j] in r;
        if i >= |h| { assert (h + r)[i] == r[i - |h|] && (h + r)[j] == r[j - |h|]; }
      }
    }
  }

  /** The only children a wildcard-free topic can want: `#`, `+` and the one of its own name. */
  lemma WantedNames(nodes: map<Path, Node>, p: Path, w: Want, names: seq<string>)
    requires forall q :: q in nodes ==> nodes[q].path == q
    requires forall u :: Wanted(w, u) <==> u in names
    requires forall i, j :: 0 <= i < j < |names| ==> names[i] != names[j]
    ensures KidsOf(nodes, {p}, w, KidList(nodes, p, names))
  {
    hide Wanted, KidList, Kid;
    KidListExact(nodes, p, names);
    KidNames(p);
    forall u | Kid(p, u) in nodes && Wanted(w, u) ensures nodes[Kid(p, u)] in KidList(nodes, p, names) {
      assert Named(nodes, p, names, nodes[Kid(p, u)]);
    }
    var s := KidList(nodes, p, names);
    assert InTree(nodes, s);
    forall c | c in s ensures c.path != [] && Parent(c.path) in {p} && Wanted(w, Last(c.path)) {
      assert Named(nodes, p, names, c);
    }
  }

  lemma ThreeKids(nodes: map<Path, Node>, p: Path, t: Path, k: nat)
    requires k < |t| && WildcardFree(t) && forall q :: q in nodes ==> nodes[q].path == q
    ensures
      var w, q, m := KidSeq(nodes, p, WELL), KidSeq(nodes, p, PLUS), KidSeq(nodes, p, t[k]);
      && KidsOf(nodes, {p}, ByTopic(t, k, true), if k + 1 == |t| then w + q + m else w)
      && KidsOf(nodes, {p}, ByTopic(t, k, false), if k + 1 == |t| then [] else q + m)
      && InLine(|p| + 1, w + q + m) && InLine(|p| + 1, w) && InLine(|p| + 1, q + m) && InLine(|p| + 1, [])
  {
    hide KidsOf, KidSeq, InLine;
    assert !IsWild(t[k]) && PLUS[0] != WELL[0];
    var n := t[k];
    KidListUnfold(nodes, p, WELL, PLUS, n);
    KidListLine(nodes, p, [WELL, PLUS, n]);
    KidListLine(nodes, p, [WELL]);
    KidListLine(nodes, p, [PLUS, n]);
    KidListLine(nodes, p, []);
    if k + 1 == |t| {
      WantedNames(nodes, p, ByTopic(t, k, true), [WELL, PLUS, n]);
      WantedNames(nodes, p, ByTopic(t, k, false), []);
    } else {
      WantedNames(nodes, p, ByTopic(t, k, true), [WELL]);
      WantedNames(nodes, p, ByTopic(t, k, false), [PLUS, n]);
    }
  }

  lemma KidListUnfold(nodes: map<Path, Node>, p: Path, a: string, b: string, c: string)
    ensures KidList(nodes, p, [a]) == KidSeq(nodes, p, a)
    ensures KidList(nodes, p, [b, c]) == KidSeq(nodes, p, b) + KidSeq(nodes, p, c)
    ensures KidList(nodes, p, [a, b, c]) == KidSeq(nodes, p, a) + KidSeq(nodes, p, b) + KidSeq(nodes, p, c)
  {
    hide KidSeq;
    assert [a][1..] == [] && [b, c][1..] == [c] && [a, b, c][1..] == [b, c] && [c][1..] == [];
    assert KidList(nodes, p, [c]) == KidSeq(nodes, p, c);
  }

  /** The children of one visited node, in the order the code looks at them. */
  method Visit(db: DbTree, n: Node, t: Path, k: nat) returns (hits: seq<Node>, next: seq<Node>)
    requires db.Valid() && n.path in db.nodes && db.nodes[n.path] == n
    requires k < |t| && WildcardFree(t)
    ensures KidsOf(db.nodes, {n.path}, ByTopic(t, k, true), hits)
    ensures KidsOf(db.nodes, {n.path}, ByTopic(t, k, false), next)
    ensures InLine(|n.path| + 1, hits) && InLine(|n.path| + 1, next)
  {
    hide Linked, Layout, InsertionPoint, Kid, StrCmp, KidsOf, InLine;
    hits, next := [], [];
    db.PathsOf();
    ThreeKids(db.nodes, n.path, t, k);
    if n.child == [] {
      NoKids(db, n);
      assert KidSeq(db.nodes, n.path, WELL) + KidSeq(db.nodes, n.path, PLUS) + KidSeq(db.nodes, n.path, t[k]) == [];
      return;
    }
    db.WildKids(n);
    if n.well != -1 {
      hits := hits + [n.child[n.well]];
    }
    if n.plus != -1 {
      if k + 1 == |t| {
        hits := hits + [n.child[n.plus]];
      } else {
        next := next + [n.child[n.plus]];
      }
    }
    var found, index := true, 0;
    if n.child[0].topic != t[k] {
      found, index := db.FindNext(n, t[k]);
    } else {
      db.FirstKid(n);
    }
    if found {
      if k + 1 == |t| {
        hits := hits + [n.child[index]];
      } else {
        next := next + [n.child[index]];
      }
    }
    ghost var w, q, m := KidSeq(db.nodes, n.path, WELL), KidSeq(db.nodes, n.path, PLUS), KidSeq(db.nodes, n.path, t[k]);
    assert hits == if k + 1 == |t| then w + q + m else w;
    assert next == if k + 1 == |t| then [] else q + m;
  }

  lemma NoKids(db: DbTree, n: Node)
    requires db.Shape() && n.path in db.nodes && db.nodes[n.path] == n && n.child == []
    ensures forall u {:trigger Kid(n.path, u)} :: Kid(n.path, u) !in db.nodes
  {
    assert Linked(db.nodes, n);
  }

  lemma KidNames(p: Path)
    ensures forall u {:trigger Kid(p, u)} :: Kid(p, u) != [] && Parent(Kid(p, u)) == p && Last(Kid(p, u)) == u
  {
    forall u ensures Kid(p, u) != [] && Parent(Kid(p, u)) == p && Last(Kid(p, u)) == u { ParentOfKid(p, u); }
  }

  ghost function Paths(s: seq<Node>): set<Path> { set c | c in s :: c.path }

  lemma TailApart(nodes: map<Path, Node>, s: seq<Node>, i: nat)
    requires InTree(nodes, s) && Distinct(s) && i < |s|
    ensures s[i].path !in Paths(s[i + 1..])
  {
    forall c | c in s[i + 1..] ensures c.path != s[i].path {
      var j :| i < j < |s| && s[j] == c;
      assert s[i] in s && s[j] in s && s[i] != s[j];
    }
  }

  lemma KidsUnion(nodes: map<Path, Node>, a: set<Path>, b: set<Path>, w: Want, r: seq<Node>, s: seq<Node>)
    requires a !! b && KidsOf(nodes, a, w, r) && KidsOf(nodes, b, w, s)
    ensures KidsOf(nodes, a + b, w, r + s)
  {
    hide Wanted, Kid;
    assert forall c :: c in r + s <==> c in r || c in s;
    forall i, j | 0 <= i < j < |r + s| ensures (r + s)[i] != (r + s)[j] {
      if i < |r| <= j {
        assert (r + s)[i] in r && (r + s)[j] in s;
      }
    }
  }

  /** Nodes visited later have children that come later: the buffer is emptied from its end. */
  lemma LineUnion(nodes: map<Path, Node>, w: Want, n: Node, after: seq<Node>, r: seq<Node>, s: seq<Node>)
    requires KidsOf(nodes, Paths(after), w, r) && KidsOf(nodes, {n.path}, w, s)
    requires forall c :: c in after ==> |c.path| == |n.path| && c.path != n.path && Ahead(n.path, c.path)
    requires InLine(|n.path| + 1, r) && InLine(|n.path| + 1, s)
    ensures InLine(|n.path| + 1, r + s)
  {
    hide Wanted, Kid;
    forall i, j | 0 <= i < j < |r + s| ensures Ahead((r + s)[i].path, (r + s)[j].path) {
      if i < |r| <= j {
        var c, d := (r + s)[i], (r + s)[j];
        assert c in r && d in s;
        assert Parent(d.path) == n.path && Parent(c.path) in Paths(after);
      } else if j < |r| {
        assert (r + s)[i] == r[i] && (r + s)[j] == r[j] && r[i] in r && r[j] in r;
      } else {
        assert (r + s)[i] == s[i - |r|] && (r + s)[j] == s[j - |r|] && s[i - |r|] in s && s[j - |r|] in s;
      }
    }
  }

  lemma NoKidsOf(nodes: map<Path, Node>, w: Want)
    ensures KidsOf(nodes, {}, w, [])
  {
  }

  /** The client vectors of the nodes hit, empty ones left out. */
  ghost function VecsOf(hits: seq<Node>): seq<seq<Client>> reads hits {
    if hits == [] then []
    else VecsOf(hits[..|hits| - 1]) + (if hits[|hits| - 1].clients != [] then [hits[|hits| - 1].clients] else [])
  }

  /** Some node hit holds a session with this id. */
  ghost predicate Offline(hits: seq<Node>, id: Id) reads hits {
    exists c :: c in hits && HasId(c.sessions, id)
  }

  /** One entry, with just this message, for each session at the nodes hit. */
  ghost predicate Queued(lo: nat, smsg: seq<Entry<seq<Msg>>>, hits: seq<Node>, msg: Msg) reads hits {
    SortedIn(lo, smsg) && forall e :: e in smsg <==> e.val == [msg] && Offline(hits, e.id)
  }

  /** `insert_session_msg`. */
  method InsertSessionMsg(ghost lo: nat, list: seq<Entry<seq<Msg>>>, msg: Msg, sessions: seq<Entry<Ctxt>>)
    returns (r: seq<Entry<seq<Msg>>>)
    requires SortedIn(lo, list) && SortedIn(lo, sessions) && forall e :: e in list ==> e.val == [msg]
    ensures SortedIn(lo, r)
    ensures forall e :: e in r <==> e.val == [msg] && (e in list || HasId(sessions, e.id))
  {
    hide SortedIn;
    r := list;
    for i := 0 to |sessions|
      invariant SortedIn(lo, r)
      invariant forall e :: e in r <==> e.val == [msg] && (e in list || HasId(sessions[..i], e.id))
    {
      SessionWindow(lo, sessions, i);
      ghost var before := r;
      r := InsertEntry(lo, r, Entry(sessions[i].id, [msg]));
      assert sessions[..i + 1] == sessions[..i] + [sessions[i]];
      HasIdSnoc(sessions[..i], sessions[i]);
      if HasId(before, sessions[i].id) {
        var j :| 0 <= j < |before| && before[j].id == sessions[i].id;
        assert before[j] in before && before[j] == Entry(sessions[i].id, [msg]);
      }
    }
    assert sessions[..|sessions|] == sessions;
  }

  lemma SessionWindow<V>(lo: nat, v: seq<Entry<V>>, i: nat)
    requires SortedIn(lo, v) && i < |v|
    ensures InWindow(lo, v[i].id)
  {
  }

  /** Records the clients and sessions of the nodes hit below one visited node. */
  method Emit(db: DbTree, hits: seq<Node>, vec0: seq<seq<Client>>, smsg0: seq<Entry<seq<Msg>>>, msg: Msg,
              ghost before: seq<Node>)
    returns (vec: seq<seq<Client>>, smsg: seq<Entry<seq<Msg>>>)
    requires db.Valid() && InTree(db.nodes, hits)
    requires vec0 == VecsOf(before) && Queued(db.sidLo, smsg0, before, msg)
    ensures vec == VecsOf(before + hits) && Queued(db.sidLo, smsg, before + hits, msg)
  {
    hide DbTree.Valid, VecsOf, SortedIn;
    vec, smsg := vec0, smsg0;
    assert before + hits[..0] == before;
    for i := 0 to |hits|
      invariant vec == VecsOf(before + hits[..i]) && Queued(db.sidLo, smsg, before + hits[..i], msg)
    {
      var c := hits[i];
      assert c in hits;
      db.StoresAt(c);
      ghost var b := before + hits[..i];
      assert before + hits[..i + 1] == b + [c];
      VecsSnoc(b, c);
      if c.clients != [] { vec := vec + [c.clients]; }
      if c.sessions != [] { smsg := InsertSessionMsg(db.sidLo, smsg, msg, c.sessions); }
      assert forall id: Id :: Offline(b + [c], id) <==> Offline(b, id) || HasId(c.sessions, id);
    }
    assert hits[..|hits|] == hits;
  }

  lemma VecsSnoc(b: seq<Node>, c: Node)
    ensures VecsOf(b + [c]) == VecsOf(b) + (if c.clients != [] then [c.clients] else [])
  {
    assert (b + [c])[..|b|] == b;
  }

  /** `collect_clients`: empties one buffer of nodes into the next, one topic level down. */
  method CollectClients(db: DbTree, nodes0: seq<Node>, t: Path, k: nat, vec0: seq<seq<Client>>,
                        smsg0: seq<Entry<seq<Msg>>>, msg: Msg, ghost before: seq<Node>)
    returns (nodesT: seq<Node>, vec: seq<seq<Client>>, smsg: seq<Entry<seq<Msg>>>, ghost hits: seq<Node>)
    requires db.Valid() && k < |t| && WildcardFree(t) && InTree(db.nodes, nodes0) && Distinct(nodes0)
    requires InLine(k, nodes0)
    requires vec0 == VecsOf(before) && Queued(db.sidLo, smsg0, before, msg)
    ensures KidsOf(db.nodes, Paths(nodes0), ByTopic(t, k, true), hits) &&
      KidsOf(db.nodes, Paths(nodes0), ByTopic(t, k, false), nodesT)
    ensures InLine(k + 1, hits) && InLine(k + 1, nodesT)
    ensures vec == VecsOf(before + hits) && Queued(db.sidLo, smsg, before + hits, msg)
  {
    hide DbTree.Valid, VecsOf, Queued, KidsOf, InLine;
    nodesT, vec, smsg, hits := [], vec0, smsg0, [];
    var nodes := nodes0;
    ghost var done: set<Path> := {};
    NoKidsOf(db.nodes, ByTopic(t, k, true));
    NoKidsOf(db.nodes, ByTopic(t, k, false));
    assert InLine(k + 1, []) by { NoLine(k + 1); }
    assert before + [] == before;
    while nodes != []
      invariant nodes <= nodes0 && done == Paths(nodes0[|nodes|..])
      invariant KidsOf(db.nodes, done, ByTopic(t, k, true), hits) &&
        KidsOf(db.nodes, done, ByTopic(t, k, false), nodesT)
      invariant InLine(k + 1, hits) && InLine(k + 1, nodesT)
      invariant vec == VecsOf(before + hits) && Queued(db.sidLo, smsg, before + hits, msg)
    {
      var n := nodes[|nodes| - 1];
      assert n in nodes0;
      nodes := nodes[..|nodes| - 1];
      assert nodes0[|nodes|..] == [n] + nodes0[|nodes| + 1..];
      TailApart(db.nodes, nodes0, |nodes|);
      LaterInLine(db.nodes, nodes0, |nodes|, k);
      var h, next := Visit(db, n, t, k);
      LineUnion(db.nodes, ByTopic(t, k, true), n, nodes0[|nodes| + 1..], hits, h);
      LineUnion(db.nodes, ByTopic(t, k, false), n, nodes0[|nodes| + 1..], nodesT, next);
      KidsInTree(db.nodes, {n.path}, ByTopic(t, k, true), h);
      KidsUnion(db.nodes, done, {n.path}, ByTopic(t, k, true), hits, h);
      KidsUnion(db.nodes, done, {n.path}, ByTopic(t, k, false), nodesT, next);
      vec, smsg := Emit(db, h, vec, smsg, msg, before + hits);
      assert before + hits + h == before + (hits + h);
      hits, nodesT := hits + h, nodesT + next;
      done := done + {n.path};
    }
    assert nodes0[0..] == nodes0;
  }

  lemma NoLine(d: nat)
    ensures InLine(d, [])
  {
  }

  lemma LaterInLine(nodes: map<Path, Node>, s: seq<Node>, i: nat, d: nat)
    requires InTree(nodes, s) && Distinct(s) && InLine(d, s) && i < |s|
    ensures |s[i].path| == d
    ensures forall c :: c in s[i + 1..] ==> |c.path| == d && c.path != s[i].path && Ahead(s[i].path, c.path)
  {
    assert s[i] in s;
    forall c | c in s[i + 1..] ensures |c.path| == d && c.path != s[i].path && Ahead(s[i].path, c.path) {
      var j :| i < j < |s| && s[j] == c;
      assert s[j] in s && s[i] != s[j];
    }
  }

  lemma KidsInTree(nodes: map<Path, Node>, from: set<Path>, w: Want, s: seq<Node>)
    requires KidsOf(nodes, from, w, s)
    ensures InTree(nodes, s)
  {
  }

  /** `buf` lists, once each, the nodes at depth `k` that the first `k` levels of the topic lead to. */
  ghost predicate Level(nodes: map<Path, Node>, t: Path, k: nat, buf: seq<Node>)
    requires k <= |t|
  {
    && InTree(nodes, buf) && Distinct(buf)
    && (forall c :: c in buf ==> |c.path| == k && LevelsMatch(c.path, t))
    && (forall p :: p in nodes && |p| == k && LevelsMatch(p, t) ==> nodes[p] in buf)
  }

  /** `hits` lists, once each, the nodes of depth at most `k` whose filters match the topic. */
  ghost predicate Matched(nodes: map<Path, Node>, t: Path, k: nat, hits: seq<Node>) {
    && InTree(nodes, hits) && Distinct(hits)
    && (forall c :: c in hits ==> |c.path| <= k && Matches(c.path, t))
    && (forall f :: f in nodes && |f| <= k && Matches(f, t) ==> nodes[f] in hits)
  }

  lemma LevelsMatchStep(p: Path, t: Path)
    requires p != [] && |p| <= |t|
    ensures LevelsMatch(p, t) <==> LevelsMatch(Parent(p), t) && LevelMatches(Last(p), t[|p| - 1])
  {
    assert forall i :: 0 <= i < |p| - 1 ==> Parent(p)[i] == p[i];
  }

  /** The flat relation, one level at a time. */
  lemma MatchesStep(f: Path, t: Path)
    requires f != [] && |f| <= |t| && WildcardFree(t)
    ensures Matches(f, t) <==> LevelsMatch(Parent(f), t) && Wanted(ByTopic(t, |f| - 1, true), Last(f))
  {
    LevelsMatchStep(f, t);
  }

  lemma LevelStep(nodes: map<Path, Node>, t: Path, k: nat, buf: seq<Node>, next: seq<Node>)
    requires k + 1 < |t| && Level(nodes, t, k, buf) && KidsOf(nodes, Paths(buf), ByTopic(t, k, false), next)
    requires forall p {:trigger Parent(p)} :: p in nodes && p != [] ==> Parent(p) in nodes
    requires forall p :: p in nodes ==> nodes[p].path == p
    ensures Level(nodes, t, k + 1, next)
  {
    forall c | c in next ensures |c.path| == k + 1 && LevelsMatch(c.path, t) {
      LevelsMatchStep(c.path, t);
    }
    forall p | p in nodes && |p| == k + 1 && LevelsMatch(p, t) ensures nodes[p] in next {
      LevelsMatchStep(p, t);
      KidOfParent(p);
      assert nodes[Parent(p)] in buf;
    }
  }

  lemma MatchedStep(nodes: map<Path, Node>, t: Path, k: nat, buf: seq<Node>, hits: seq<Node>, more: seq<Node>)
    requires k < |t| && WildcardFree(t) && Level(nodes, t, k, buf) && Matched(nodes, t, k, hits)
    requires KidsOf(nodes, Paths(buf), ByTopic(t, k, true), more)
    requires forall p {:trigger Parent(p)} :: p in nodes && p != [] ==> Parent(p) in nodes
    requires forall p :: p in nodes ==> nodes[p].path == p
    ensures Matched(nodes, t, k + 1, hits + more)
  {
    hide Matches, LevelsMatch, Wanted;
    forall c | c in more ensures |c.path| == k + 1 && Matches(c.path, t) {
      MatchesStep(c.path, t);
    }
    forall f | f in nodes && |f| <= k + 1 && Matches(f, t) ensures nodes[f] in hits + more {
      if |f| == k + 1 {
        MatchesStep(f, t);
        KidOfParent(f);
        assert nodes[Parent(f)] in buf;
      }
    }
    forall i, j | 0 <= i < j < |hits + more| ensures (hits + more)[i] != (hits + more)[j] {
      if i < |hits| <= j { assert (hits + more)[i] in hits && (hits + more)[j] in more; }
    }
  }

  /** The nodes hit, in the order of the walk. */
  ghost predicate Sequenced(hits: seq<Node>) {
    forall i, j :: 0 <= i < j < |hits| ==> Earlier(hits[i].path, hits[j].path)
  }

  lemma SequenceStep(nodes: map<Path, Node>, t: Path, k: nat, hits: seq<Node>, more: seq<Node>)
    requires Matched(nodes, t, k, hits) && Sequenced(hits) && InLine(k + 1, more)
    ensures Sequenced(hits + more)
  {
    hide Matches;
    var all := hits + more;
    forall i, j | 0 <= i < j < |all| ensures Earlier(all[i].path, all[j].path) {
      if j >= |hits| { assert all[j] in more; }
      if i < |hits| { assert all[i] in hits; } else { assert all[i] in more; }
    }
  }

  /** When no node is left to walk, every match has been seen. */
  lemma MatchedAll(db: DbTree, t: Path, k: nat, hits: seq<Node>)
    requires db.Shape() && k <= |t| && Matched(db.nodes, t, k, hits)
    requires k == |t| || Level(db.nodes, t, k, [])
    ensures Matched(db.nodes, t, |t|, hits)
  {
    forall f | f in db.nodes && |f| <= |t| && Matches(f, t) ensures |f| <= k {
      if |f| > k {
        NotInLevel(db.nodes, t, k, f[..k]);
        assert LevelsMatch(f[..k], t) by {
          if Last(f) == WELL { assert f[..|f| - 1][..k] == f[..k]; }
          forall i | 0 <= i < k ensures LevelMatches(f[..k][i], t[i]) {
            assert Last(f) == WELL ==> f[..|f| - 1][i] == f[i];
          }
        }
        db.PrefixClosed(f, k);
      }
    }
  }

  lemma NotInLevel(nodes: map<Path, Node>, t: Path, k: nat, p: Path)
    requires k <= |t| && Level(nodes, t, k, [])
    ensures |p| == k && LevelsMatch(p, t) ==> p !in nodes
  {
  }

  /** The ids with at least one filter that matches the topic. */
  ghost function Listeners(m: map<(Path, Id), Ctxt>, t: Path): set<Id> {
    set k | k in m && Matches(k.0, t) :: k.1
  }

  /** The record is a live subscription with a filter that matches the topic. */
  ghost predicate Subscribed(m: map<(Path, Id), Ctxt>, t: Path, e: Client) {
    exists f :: Matches(f, t) && (f, e.id) in m && m[(f, e.id)] == e.val
  }

  /** The messages waiting for one session. */
  ghost function Backlog(q: seq<Entry<seq<Msg>>>, id: Id): seq<Msg> {
    if HasId(q, id) then var i :| 0 <= i < |q| && q[i].id == id; q[i].val else []
  }

  lemma BacklogOf(q: seq<Entry<seq<Msg>>>, e: Entry<seq<Msg>>)
    requires Descending(q) && e in q
    ensures Backlog(q, e.id) == e.val && HasId(q, e.id)
  {
    var j :| 0 <= j < |q| && q[j] == e;
    assert q[j].id == e.id;
  }

  /** Adding one message to one queue. */
  method Enqueue(ghost lo: nat, list: seq<Entry<seq<Msg>>>, id: Id, m: Msg) returns (r: seq<Entry<seq<Msg>>>)
    requires SortedIn(lo, list) && InWindow(lo, id)
    ensures SortedIn(lo, r)
    ensures forall x: Id :: Backlog(r, x) == Backlog(list, x) + (if x == id then [m] else [])
  {
    hide Backlog;
    var found, index := FindEntry(lo, list, id);
    if found {
      r := list[index := Entry(id, list[index].val + [m])];
      forall x: Id ensures Backlog(r, x) == Backlog(list, x) + (if x == id then [m] else []) {
        BacklogPut(list, index, list[index].val + [m], r, x);
      }
    } else {
      r := InsertEntry(lo, list, Entry(id, [m]));
      forall x: Id ensures Backlog(r, x) == Backlog(list, x) + (if x == id then [m] else []) {
        BacklogAdd(list, Entry(id, [m]), r, x);
      }
    }
  }

  lemma BacklogPut(list: seq<Entry<seq<Msg>>>, i: nat, ms: seq<Msg>, r: seq<Entry<seq<Msg>>>, x: Id)
    requires Descending(list) && i < |list| && r == list[i := Entry(list[i].id, ms)]
    ensures Backlog(r, x) == if x == list[i].id then ms else Backlog(list, x)
    ensures Backlog(list, list[i].id) == list[i].val
  {
    hide Backlog;
    BacklogOf(list, list[i]);
    BacklogOf(r, r[i]);
    if x != list[i].id {
      if HasId(list, x) {
        var j :| 0 <= j < |list| && list[j].id == x;
        BacklogOf(list, list[j]);
        BacklogOf(r, r[j]);
      } else {
        NoBacklog(list, x);
        NoBacklog(r, x);
      }
    }
  }

  lemma BacklogAdd(list: seq<Entry<seq<Msg>>>, e: Entry<seq<Msg>>, r: seq<Entry<seq<Msg>>>, x: Id)
    requires Descending(list) && Descending(r) && !HasId(list, e.id) && forall y :: y in r <==> y in list || y == e
    ensures Backlog(r, x) == if x == e.id then e.val else Backlog(list, x)
    ensures Backlog(list, e.id) == []
  {
    hide Backlog;
    BacklogOf(r, e);
    NoBacklog(list, e.id);
    if x != e.id {
      if HasId(list, x) {
        var j :| 0 <= j < |list| && list[j].id == x;
        BacklogOf(list, list[j]);
        BacklogOf(r, list[j]);
      } else {
        NoBacklog(list, x);
        forall j | 0 <= j < |r| ensures r[j].id != x {
          assert r[j] in list || r[j] == e;
        }
        NoBacklog(r, x);
      }
    }
  }

  lemma NoBacklog(q: seq<Entry<seq<Msg>>>, id: Id)
    requires !HasId(q, id)
    ensures Backlog(q, id) == []
  {
  }

  /** `insert_session_msg_list`: appends what one publish has queued to what was waiting before. */
  method InsertSessionMsgList(ghost lo: nat, list: seq<Entry<seq<Msg>>>, temp: seq<Entry<seq<Msg>>>)
    returns (r: seq<Entry<seq<Msg>>>)
    requires SortedIn(lo, list) && SortedIn(lo, temp) && forall i :: 0 <= i < |temp| ==> |temp[i].val| == 1
    ensures SortedIn(lo, r)
    ensures forall x: Id :: Backlog(r, x) == Backlog(list, x) + Backlog(temp, x)
  {
    hide Backlog;
    r := list;
    forall x: Id ensures Backlog(temp[..0], x) == [] { NoBacklog(temp[..0], x); }
    for i := 0 to |temp|
      invariant SortedIn(lo, r)
      invariant forall x: Id :: Backlog(r, x) == Backlog(list, x) + Backlog(temp[..i], x)
    {
      var e := temp[i];
      r := Enqueue(lo, r, e.id, e.val[0]);
      assert temp[..i + 1] == temp[..i] + [e] && e.val == [e.val[0]];
      forall x: Id ensures Backlog(temp[..i + 1], x) == if x == e.id then e.val else Backlog(temp[..i], x) {
        BacklogAdd(temp[..i], e, temp[..i + 1], x);
      }
      NoBacklog(temp[..i], e.id);
    }
    assert temp[..|temp|] == temp;
  }

  /** The walk of `search_client`: levels alternate between two buffers. */
  method WalkLevels(db: DbTree, t: Path, msg: Msg)
    returns (vec: seq<seq<Client>>, smsg: seq<Entry<seq<Msg>>>, ghost hits: seq<Node>)
    requires db.Valid() && WildcardFree(t) && t != []
    ensures Matched(db.nodes, t, |t|, hits) && Sequenced(hits)
    ensures vec == VecsOf(hits) && Queued(db.sidLo, smsg, hits, msg)
  {
    hide DbTree.Valid, VecsOf, Queued, KidsOf, Matched, Level, InLine, Sequenced;
    vec, smsg, hits := [], [], [];
    Start(db, t, msg);
    db.PathsOf();
    db.ShapeOf();
    if db.root.child == [] {
      return;
    }
    var nodes: seq<Node>, nodesT: seq<Node> := [db.root], [];
    var k := 0;
    while k < |t| && nodes != []
      invariant k <= |t| && Matched(db.nodes, t, k, hits) && Sequenced(hits)
      invariant k < |t| ==> Level(db.nodes, t, k, nodes) && InLine(k, nodes)
      invariant vec == VecsOf(hits) && Queued(db.sidLo, smsg, hits, msg)
      decreases |t| - k
    {
      LevelInTree(db.nodes, t, k, nodes);
      ghost var more;
      nodesT, vec, smsg, more := CollectClients(db, nodes, t, k, vec, smsg, msg, hits);
      MatchedStep(db.nodes, t, k, nodes, hits, more);
      SequenceStep(db.nodes, t, k, hits, more);
      hits := hits + more;
      if k + 1 < |t| { LevelStep(db.nodes, t, k, nodes, nodesT); }
      nodes := [];
      k := k + 1;
      if k == |t| { break; }
      LevelInTree(db.nodes, t, k, nodesT);
      nodes, vec, smsg, more := CollectClients(db, nodesT, t, k, vec, smsg, msg, hits);
      MatchedStep(db.nodes, t, k, nodesT, hits, more);
      SequenceStep(db.nodes, t, k, hits, more);
      hits := hits + more;
      if k + 1 < |t| { LevelStep(db.nodes, t, k, nodesT, nodes); }
      nodesT := [];
      k := k + 1;
    }
    MatchedAll(db, t, k, hits);
  }

  lemma LevelInTree(nodes: map<Path, Node>, t: Path, k: nat, buf: seq<Node>)
    requires k <= |t| && Level(nodes, t, k, buf)
    ensures InTree(nodes, buf) && Distinct(buf)
  {
  }

  lemma Start(db: DbTree, t: Path, msg: Msg)
    requires db.Valid()
    ensures Matched(db.nodes, t, 0, []) && Level(db.nodes, t, 0, [db.root])
    ensures Sequenced([]) && InLine(0, [db.root])
    ensures VecsOf([]) == [] && Queued(db.sidLo, [], [], msg)
    ensures db.root.child == [] ==> Matched(db.nodes, t, |t|, [])
  {
    hide Linked;
    if db.root.child == [] {
      db.ShapeOf();
      forall f | f != [] ensures f !in db.nodes {
        assert f[..0] == [];
        db.LeafMissing(f, 0);
      }
    }
  }

  /** The records found are exactly the live subscriptions whose filters match. */
  lemma RecordsAreMatches(db: DbTree, t: Path, hits: seq<Node>, e: Client)
    requires db.Valid() && Matched(db.nodes, t, |t|, hits)
    ensures e in Flatten(VecsOf(hits)) <==> Subscribed(db.flat.live, t, e)
  {
    hide Matches, Linked;
    FlattenVecs(hits, e);
    if c :| c in hits && e in c.clients {
      db.StoresAt(c);
      HoldsValue(db.flat.live, c.path, c.clients, e);
      assert Matches(c.path, t) && (c.path, e.id) in db.flat.live;
    }
    if f :| Matches(f, t) && (f, e.id) in db.flat.live && db.flat.live[(f, e.id)] == e.val {
      assert |f| <= |t| by { MatchLength(f, t); }
      assert f in db.nodes;
      var c := db.nodes[f];
      db.StoresAt(c);
      assert Entry(e.id, e.val) in c.clients;
    }
  }

  lemma MatchLength(f: Path, t: Path)
    requires Matches(f, t)
    ensures 0 < |f| <= |t|
  {
  }

  lemma {:induction false} FlattenVecs(hits: seq<Node>, e: Client)
    ensures e in Flatten(VecsOf(hits)) <==> exists c :: c in hits && e in c.clients
  {
    if hits != [] {
      var b, c := hits[..|hits| - 1], hits[|hits| - 1];
      FlattenVecs(b, e);
      assert hits == b + [c];
      var v := VecsOf(b);
      if c.clients != [] {
        assert VecsOf(hits) == v + [c.clients];
        assert (v + [c.clients])[..|v|] == v;
        assert Flatten(v + [c.clients]) == Flatten(v) + c.clients;
      } else {
        assert VecsOf(hits) == v + [] == v;
      }
      assert e in Flatten(VecsOf(hits)) <==> e in Flatten(v) || e in c.clients;
      assert forall d :: d in hits <==> d in b || d == c;
    }
  }

  /** The subscriptions held at the nodes hit. */
  ghost function KeysOf(hits: seq<Node>): seq<Key> reads hits {
    if hits == [] then [] else KeysOf(hits[..|hits| - 1]) + KeysAt(hits[|hits| - 1])
  }

  ghost function KeysAt(c: Node): seq<Key> reads c {
    seq(|c.clients|, i requires 0 <= i < |c.clients| reads c => (c.path, c.clients[i].id))
  }

  lemma {:induction false} KeyIn(hits: seq<Node>, k: Key)
    ensures k in KeysOf(hits) <==> exists c :: c in hits && c.path == k.0 && HasId(c.clients, k.1)
  {
    if hits != [] {
      var b, c := hits[..|hits| - 1], hits[|hits| - 1];
      KeyIn(b, k);
      assert hits == b + [c];
      if k in KeysAt(c) { var i :| 0 <= i < |c.clients| && KeysAt(c)[i] == k; assert c.clients[i].id == k.1; }
      if c.path == k.0 && HasId(c.clients, k.1) {
        var i :| 0 <= i < |c.clients| && c.clients[i].id == k.1;
        assert KeysAt(c)[i] == k;
      }
    }
  }

  lemma {:induction false} KeysLined(db: DbTree, hits: seq<Node>)
    requires db.Valid() && InTree(db.nodes, hits) && Sequenced(hits)
    ensures Lined(KeysOf(hits))
  {
    hide DbTree.Valid, Earlier;
    if hits != [] {
      var b, c := hits[..|hits| - 1], hits[|hits| - 1];
      assert hits == b + [c];
      KeysLined(db, b);
      db.StoresAt(c);
      var x, y := KeysOf(b), KeysAt(c);
      forall i, j | 0 <= i < j < |x + y| ensures Precedes((x + y)[i], (x + y)[j]) {
        if i < |x| <= j {
          KeyIn(b, x[i]);
          assert x[i] in x;
          var d :| d in b && d.path == x[i].0;
          assert Earlier(d.path, c.path);
        }
      }
    }
  }

  lemma {:induction false} RecordsOf(db: DbTree, hits: seq<Node>)
    requires db.Valid() && InTree(db.nodes, hits)
    ensures forall k :: k in KeysOf(hits) ==> k in db.flat.live
    ensures Flatten(VecsOf(hits)) == Listing(db.flat.live, KeysOf(hits))
  {
    hide DbTree.Valid, Flatten, VecsOf;
    if hits == [] {
      NoVectors();
    } else {
      var b, c := hits[..|hits| - 1], hits[|hits| - 1];
      assert hits == b + [c];
      RecordsOf(db, b);
      VecsSnoc(b, c);
      FlattenSnoc(VecsOf(b), c.clients);
      RecordsAt(db, c);
      RecordsConcat(db.flat.live, KeysOf(b), KeysAt(c));
      assert VecsOf(b) + [] == VecsOf(b) && Flatten(VecsOf(b)) + [] == Flatten(VecsOf(b));
    }
  }

  lemma RecordsAt(db: DbTree, c: Node)
    requires db.Valid() && c.path in db.nodes && db.nodes[c.path] == c
    ensures forall k :: k in KeysAt(c) ==> k in db.flat.live
    ensures Listing(db.flat.live, KeysAt(c)) == c.clients
  {
    hide DbTree.Valid;
    db.StoresAt(c);
    forall i | 0 <= i < |c.clients|
      ensures KeysAt(c)[i] in db.flat.live && db.flat.live[KeysAt(c)[i]] == c.clients[i].val
    {
      HoldsValue(db.flat.live, c.path, c.clients, c.clients[i]);
    }
  }

  lemma RecordsConcat(live: map<Key, Ctxt>, a: seq<Key>, b: seq<Key>)
    requires (forall k :: k in a ==> k in live) && forall k :: k in b ==> k in live
    ensures Listing(live, a + b) == Listing(live, a) + Listing(live, b)
  {
  }

  lemma NoVectors()
    ensures VecsOf([]) == [] && Flatten([]) == []
  {
  }

  lemma FlattenSnoc(v: seq<seq<Client>>, c: seq<Client>)
    ensures Flatten(v + [c]) == Flatten(v) + c
  {
    assert (v + [c])[..|v|] == v;
  }

  /** The walk gathers the matching subscriptions in the order of their filters. */
  lemma WalkGathers(db: DbTree, t: Path, hits: seq<Node>)
    requires db.Valid() && Matched(db.nodes, t, |t|, hits) && Sequenced(hits)
    ensures Gathered(db.flat.live, t, Flatten(VecsOf(hits)))
  {
    hide DbTree.Valid, Linked, Sequenced, Matches, Lined, Flatten, VecsOf;
    KeysLined(db, hits);
    RecordsOf(db, hits);
    forall k ensures k in KeysOf(hits) <==> k in db.flat.live && Matches(k.0, t) {
      KeyIn(hits, k);
      KeyHeld(db, t, hits, k);
    }
    assert Trail(db.flat.live, t, KeysOf(hits));
  }

  lemma KeyHeld(db: DbTree, t: Path, hits: seq<Node>, k: Key)
    requires db.Valid() && Matched(db.nodes, t, |t|, hits)
    ensures (exists c :: c in hits && c.path == k.0 && HasId(c.clients, k.1)) <==> k in db.flat.live && Matches(k.0, t)
  {
    hide Linked, Matches;
    if c :| c in hits && c.path == k.0 && HasId(c.clients, k.1) {
      db.StoresAt(c);
      HoldsId(db.flat.live, c.path, c.clients, k.1);
    }
    if k in db.flat.live && Matches(k.0, t) {
      MatchLength(k.0, t);
      assert k.0 in db.nodes;
      var c := db.nodes[k.0];
      db.StoresAt(c);
      HoldsId(db.flat.live, c.path, c.clients, k.1);
    }
  }

  /** The sessions at the nodes found are exactly those with a matching filter. */
  lemma OfflineAreMatches(db: DbTree, t: Path, hits: seq<Node>, id: Id)
    requires db.Valid() && Matched(db.nodes, t, |t|, hits)
    ensures Offline(hits, id) <==> id in Listeners(db.flat.sess, t)
  {
    hide Matches, Linked;
    if c :| c in hits && HasId(c.sessions, id) {
      db.StoresAt(c);
      HoldsId(db.flat.sess, c.path, c.sessions, id);
      assert (c.path, id) in db.flat.sess && Matches(c.path, t);
    }
    if k :| k in db.flat.sess && Matches(k.0, t) && k.1 == id {
      MatchLength(k.0, t);
      assert k.0 in db.nodes;
      var c := db.nodes[k.0];
      db.StoresAt(c);
      HoldsId(db.flat.sess, c.path, c.sessions, id);
    }
  }

  /**
   * What a publish finds: the client records of exactly the matching filters, each node once, and
   * one queue entry for each offline session that has a matching filter, however many match.
   */
  method Gather(db: DbTree, t: Path, msg: Msg, append: bool)
    returns (ctxts: seq<Ctxt>, smsg: seq<Entry<seq<Msg>>>, ghost s: seq<Client>)
    requires db.Valid() && WildcardFree(t) && t != []
    ensures Gathered(db.flat.live, t, s)
    ensures forall e :: e in s <==> Subscribed(db.flat.live, t, e)
    ensures ctxts == Ctxts(Survivors(s, append))
    ensures SortedIn(db.sidLo, smsg)
    ensures forall e :: e in smsg <==> e.val == [msg] && e.id in Listeners(db.flat.sess, t)
  {
    hide DbTree.Valid, VecsOf, Matched, Listeners, Flatten, Subscribed, SortedIn, Offline, Gathered, Sequenced;
    var vec;
    ghost var hits;
    vec, smsg, hits := WalkLevels(db, t, msg);
    s := Flatten(vec);
    WalkGathers(db, t, hits);
    forall e ensures e in s <==> Subscribed(db.flat.live, t, e) { RecordsAreMatches(db, t, hits, e); }
    forall id: Id ensures Offline(hits, id) <==> id in Listeners(db.flat.sess, t) {
      OfflineAreMatches(db, t, hits, id);
    }
    VecsWindow(db, t, hits);
    ctxts := IterateClient(db.pipeLo, vec, append);
  }

  /** `search_client`: the contexts to deliver to now, and the message queued for the sessions that are away. */
  method SearchClient(db: DbTree, topic: string, msg: Msg, cnt0: nat, append: bool)
    returns (ctxts: seq<Ctxt>, cnt: nat, ghost s: seq<Client>)
    requires db.Valid() && WildcardFree(Split(topic))
    modifies db`queue
    ensures db.Valid()
    ensures Gathered(db.flat.live, Split(topic), s)
    ensures forall e :: e in s <==> Subscribed(db.flat.live, Split(topic), e)
    ensures ctxts == Ctxts(Survivors(s, append))
    ensures forall id: Id :: Backlog(db.queue, id) ==
              old(Backlog(db.queue, id)) + (if id in Listeners(db.flat.sess, Split(topic)) then [msg] else [])
    ensures cnt == if msg != NULL then |Listeners(db.flat.sess, Split(topic))| else cnt0
  {
    hide Gathered, Backlog, Linked, Listeners, Subscribed, Survivors, SplitFrom;
    var t := TopicParse(topic);
    var smsg;
    ctxts, smsg, s := Gather(db, t, msg, append);
    cnt := if msg != NULL then |smsg| else cnt0;
    ghost var away := Listeners(db.flat.sess, t);
    CountIds(smsg, msg, away);
    assert forall i :: 0 <= i < |smsg| ==> smsg[i] in smsg;
    var q := InsertSessionMsgList(db.sidLo, db.queue, smsg);
    forall id: Id ensures Backlog(smsg, id) == if id in away then [msg] else [] {
      QueuedBacklog(smsg, msg, away, id);
    }
    db.queue := q;
  }

  lemma QueuedBacklog(smsg: seq<Entry<seq<Msg>>>, msg: Msg, ids: set<Id>, id: Id)
    requires Descending(smsg) && forall e :: e in smsg <==> e.val == [msg] && e.id in ids
    ensures Backlog(smsg, id) == if id in ids then [msg] else []
  {
    if id in ids {
      assert Entry(id, [msg]) in smsg;
      BacklogOf(smsg, Entry(id, [msg]));
    } else {
      assert !HasId(smsg, id);
    }
  }

  lemma {:induction false} CountIds(smsg: seq<Entry<seq<Msg>>>, msg: Msg, ids: set<Id>)
    requires Descending(smsg) && forall e :: e in smsg <==> e.val == [msg] && e.id in ids
    ensures |smsg| == |ids|
  {
    if smsg == [] {
      forall x ensures x !in ids {
        var e := Entry(x, [msg]);
        assert e in smsg <==> x in ids;
      }
      assert ids == {};
    } else {
      var e := smsg[0];
      var rest := smsg[1..];
      forall y ensures y in rest <==> y.val == [msg] && y.id in ids - {e.id} {
        if y in rest { assert y in smsg; var i :| 0 <= i < |rest| && rest[i] == y; assert smsg[i + 1] == y; }
        if y.val == [msg] && y.id in ids - {e.id} {
          var i :| 0 <= i < |smsg| && smsg[i] == y;
          assert i > 0 && rest[i - 1] == y;
        }
      }
      CountIds(rest, msg, ids - {e.id});
    }
  }

  lemma VecsWindow(db: DbTree, t: Path, hits: seq<Node>)
    requires db.Valid() && Matched(db.nodes, t, |t|, hits)
    ensures forall i :: 0 <= i < |VecsOf(hits)| ==>
      forall j :: 0 <= j < |VecsOf(hits)[i]| ==> InWindow(db.pipeLo, VecsOf(hits)[i][j].id)
  {
    VecsInWindow(db, hits);
  }

  lemma {:induction false} VecsInWindow(db: DbTree, hits: seq<Node>)
    requires db.Valid() && InTree(db.nodes, hits)
    ensures forall i :: 0 <= i < |VecsOf(hits)| ==>
      forall j :: 0 <= j < |VecsOf(hits)[i]| ==> InWindow(db.pipeLo, VecsOf(hits)[i][j].id)
  {
    hide Linked;
    if hits != [] {
      VecsInWindow(db, hits[..|hits| - 1]);
      db.StoresAt(hits[|hits| - 1]);
    }
  }

  /** `search_session`: hands over and forgets everything that waited for one session. */
  method SearchSession(db: DbTree, id: Id) returns (msgs: seq<Msg>)
    requires db.Valid() && InWindow(db.sidLo, id)
    modifies db`queue
    ensures db.Valid()
    ensures msgs == old(Backlog(db.queue, id))
    ensures forall x: Id :: Backlog(db.queue, x) == if x == id then [] else old(Backlog(db.queue, x))
  {
    hide Linked, Backlog;
    var e, r := EraseEntry(db.sidLo, db.queue, id);
    msgs := [];
    if e.Some? {
      msgs := e.value.val;
      BacklogOf(db.queue, e.value);
    } else {
      NoBacklog(db.queue, id);
    }
    forall x: Id ensures Backlog(r, x) == if x == id then [] else Backlog(db.queue, x) {
      BacklogErased(db.queue, id, r, x);
    }
    db.queue := r;
  }

  lemma BacklogErased(list: seq<Entry<seq<Msg>>>, id: Id, r: seq<Entry<seq<Msg>>>, x: Id)
    requires Descending(list) && Descending(r) && forall y :: y in r <==> y in list && y.id != id
    ensures Backlog(r, x) == if x == id then [] else Backlog(list, x)
  {
    hide Backlog;
    if HasId(r, x) {
      var j :| 0 <= j < |r| && r[j].id == x;
      assert r[j] in r;
      BacklogOf(r, r[j]);
      BacklogOf(list, r[j]);
    } else {
      NoBacklog(r, x);
      if x != id {
        forall j | 0 <= j < |list| ensures list[j].id != x {
          assert list[j] in list;
          assert list[j] in r || list[j].id == id;
        }
        NoBacklog(list, x);
      }
    }
  }

  /** `dbtree_cache_session_msg`. */
  method CacheSessionMsg(db: DbTree, msg: Msg, id: Id)
    requires db.Valid() && InWindow(db.sidLo, id)
    modifies db`queue
    ensures db.Valid()
    ensures forall x: Id :: Backlog(db.queue, x) == old(Backlog(db.queue, x)) + (if x == id then [msg] else [])
  {
    hide Linked, Backlog;
    var temp := [Entry(id, [msg])];
    var r := InsertSessionMsgList(db.sidLo, db.queue, temp);
    forall x: Id ensures Backlog(temp, x) == if x == id then [msg] else [] {
      QueuedBacklog(temp, msg, {id}, x);
    }
    db.queue := r;
  }
}
