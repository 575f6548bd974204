/** Whole runs of the tree: any sequence of its operations against plain sets of records and of nodes. */
module TreeRuns {
  import opened Topics
  import opened Entries
  import opened Nodes
  import opened Tree
  import opened TreeLaws
  import opened Publish
  import opened Dedup
  import opened Order

  datatype Op =
    | Insert(topic: string, ctxt: Ctxt, pid: Id)
    | Delete(topic: string, pid: Id)
    | Cache(topic: string, sid: Id, pid: Id)
    | Forget(topic: string, sid: Id)
    | Restore(topic: string, sid: Id, pid: Id)

  /** What is stored, and the paths that have a node. */
  datatype Records = Records(flat: Flat, keys: set<Path>)

  const NOTHING: Records := Records(Flat(map[], map[], map[]), {[]})

  ghost function Way(p: Path): set<Path> { set k | 0 <= k <= |p| :: p[..k] }

  /** A removal at a node that exists, and the nodes that something still anchors. */
  ghost function Removed(r: Records, p: Path, sid: Id, pid: Id, flag: DeleteFlag): Records {
    if p !in r.keys then r
    else
      var flat := Pulled(r.flat, p, sid, pid, flag);
      Records(flat, set k | k in r.keys && (k == [] || Anchored(r.keys, flat, p, k)))
  }

  /**
   * What an operation does that works at the node for `at`. A session that is not cached is restored to
   * nothing, but its filter gets a node.
   */
  ghost function StepAt(r: Records, op: Op, at: Path): Records {
    match op
    case Insert(_, ctxt, pid) =>
      Records(if (at, pid) in r.flat.live then r.flat else r.flat.(live := r.flat.live[(at, pid) := ctxt]),
              r.keys + Way(at))
    case Delete(_, pid) => Removed(r, at, 0, pid, DeleteClient)
    case Cache(_, sid, pid) => Removed(r, at, sid, pid, CacheSession)
    case Forget(_, sid) => Removed(r, at, sid, 0, DeleteSession)
    case Restore(_, sid, pid) => Records(Revived(r.flat, at, sid, pid), r.keys + Way(at))
  }

  /** A run whose operations worked at the nodes of the trace. */
  ghost function RunAt(ops: seq<Op>, trace: seq<Path>): Records
    requires |trace| == |ops|
  {
    if ops == [] then NOTHING
    else
      var n := |ops| - 1;
      StepAt(RunAt(ops[..n], trace[..n]), ops[n], trace[n])
  }

  /** The plain run: every operation works at its filter. */
  ghost function Run(ops: seq<Op>): Records {
    if ops == [] then NOTHING
    else
      var n := |ops| - 1;
      StepAt(Run(ops[..n]), ops[n], Split(ops[n].topic))
  }

  /** The node for the first `k` levels of the filter, not all of it, has nothing below it. */
  ghost predicate CutAt(keys: set<Path>, f: Path, k: int) {
    1 <= k < |f| && f[..k] in keys && forall q :: q in keys && f[..k] <= q ==> q == f[..k]
  }

  ghost predicate CutShort(keys: set<Path>, f: Path) { exists k :: CutAt(keys, f, k) }

  /** The operation creates nodes at its filter: as intended always, as written if no level is cut short. */
  ghost predicate Smooth(r: Records, op: Op, restart: nat) {
    (op.Insert? || op.Restore?) && restart == 0 ==> !CutShort(r.keys, Split(op.topic))
  }

  ghost predicate SmoothRun(ops: seq<Op>, restart: nat) {
    ops == [] || (SmoothRun(ops[..|ops| - 1], restart) && Smooth(Run(ops[..|ops| - 1]), ops[|ops| - 1], restart))
  }

  /**
   * Where an insertion for `f` may put it: at `f`, or, as written and if `f` is cut short, with the level of
   * the cut repeated. Without wildcards there is no choice.
   */
  ghost predicate PutAt(keys: set<Path>, f: Path, restart: nat, at: Path) {
    if at == f then WildcardFree(f) && restart == 0 ==> !CutShort(keys, f)
    else restart == 0 && exists k :: CutAt(keys, f, k) && at == f[..k] + f[k - 1..]
  }

  /** Where an operation may work; a removal looks at its filter. */
  ghost predicate Landing(r: Records, op: Op, restart: nat, at: Path) {
    var p := Split(op.topic);
    if op.Insert? || op.Restore? then PutAt(r.keys, p, restart, at) else at == p
  }

  ghost predicate Traced(ops: seq<Op>, restart: nat, trace: seq<Path>) {
    && |trace| == |ops|
    && (ops == [] ||
        var n := |ops| - 1;
        Traced(ops[..n], restart, trace[..n]) && Landing(RunAt(ops[..n], trace[..n]), ops[n], restart, trace[n]))
  }

  ghost predicate InPlace(ops: seq<Op>, trace: seq<Path>)
    requires |trace| == |ops|
  {
    forall i :: 0 <= i < |ops| ==> trace[i] == Split(ops[i].topic)
  }

  /** All the states on the way are those of the plain run. */
  ghost predicate Plain(ops: seq<Op>, trace: seq<Path>)
    requires |trace| == |ops|
  {
    forall i :: 0 <= i <= |ops| ==> RunAt(ops[..i], trace[..i]) == Run(ops[..i])
  }

  /** Restores name cached sessions. */
  ghost predicate Named(r: Records, op: Op, at: Path) { op.Restore? ==> (at, op.sid) in r.flat.sess }

  ghost predicate Sane(ops: seq<Op>, trace: seq<Path>)
    requires |trace| == |ops|
  {
    ops == [] ||
    var n := |ops| - 1;
    Sane(ops[..n], trace[..n]) && Named(RunAt(ops[..n], trace[..n]), ops[n], trace[n])
  }

  /** A filter that is put elsewhere gets a new node one level deeper. */
  lemma PutElsewhere(keys: set<Path>, f: Path, restart: nat, at: Path)
    requires PutAt(keys, f, restart, at) && at != f
    ensures |at| == |f| + 1 && at !in keys && at !in Way(f) && CutShort(keys, f)
  {
    var k :| CutAt(keys, f, k) && at == f[..k] + f[k - 1..];
    assert at[..k] == f[..k];
    assert f[..k] <= at;
  }

  /** An operation does what it does at its filter if and only if it works there. */
  lemma StepInPlaceIff(r: Records, op: Op, restart: nat, at: Path)
    requires Landing(r, op, restart, at)
    ensures StepAt(r, op, at) == StepAt(r, op, Split(op.topic)) <==> at == Split(op.topic)
    ensures if at != Split(op.topic) then !Smooth(r, op, restart)
            else WildcardFree(Split(op.topic)) ==> Smooth(r, op, restart)
  {
    hide Split, Way, Removed, Revived;
    var p := Split(op.topic);
    if at != p {
      PutElsewhere(r.keys, p, restart, at);
      WayEnds(at);
      assert at in StepAt(r, op, at).keys && at !in StepAt(r, op, p).keys;
    }
  }

  lemma PlainSnoc(ops: seq<Op>, trace: seq<Path>)
    requires |trace| == |ops| > 0
    ensures var n := |ops| - 1;
      Plain(ops, trace) <==> Plain(ops[..n], trace[..n]) && RunAt(ops, trace) == Run(ops)
  {
    hide RunAt, Run;
    var n := |ops| - 1;
    assert ops[..n + 1] == ops && trace[..n + 1] == trace;
    forall i | 0 <= i <= n ensures ops[..n][..i] == ops[..i] && trace[..n][..i] == trace[..i] {}
    if Plain(ops, trace) {
      forall i | 0 <= i <= n ensures RunAt(ops[..n][..i], trace[..n][..i]) == Run(ops[..n][..i]) {
        assert RunAt(ops[..i], trace[..i]) == Run(ops[..i]);
      }
    }
    if Plain(ops[..n], trace[..n]) && RunAt(ops, trace) == Run(ops) {
      forall i | 0 <= i <= |ops| ensures RunAt(ops[..i], trace[..i]) == Run(ops[..i]) {
        if i <= n { assert RunAt(ops[..n][..i], trace[..n][..i]) == Run(ops[..n][..i]); }
      }
    }
  }

  /**
   * A run goes through the states of the plain run if and only if all its insertions land in place; they do
   * if none is cut short, and without wildcards only then.
   */
  lemma {:induction false} InPlaceIff(ops: seq<Op>, restart: nat, trace: seq<Path>)
    requires Traced(ops, restart, trace)
    ensures Plain(ops, trace) <==> InPlace(ops, trace)
    ensures SmoothRun(ops, restart) ==> InPlace(ops, trace)
    ensures (forall i :: 0 <= i < |ops| ==> WildcardFree(Split(ops[i].topic))) && InPlace(ops, trace) ==>
      SmoothRun(ops, restart)
    ensures InPlace(ops, trace) ==> RunAt(ops, trace) == Run(ops)
  {
    hide Split, StepAt, Smooth, Plain;
    if ops == [] {
      NoneYet();
    } else {
      var n := |ops| - 1;
      InPlaceIff(ops[..n], restart, trace[..n]);
      PlainSnoc(ops, trace);
      StepInPlaceIff(RunAt(ops[..n], trace[..n]), ops[n], restart, trace[n]);
      assert InPlace(ops, trace) <==> InPlace(ops[..n], trace[..n]) && trace[n] == Split(ops[n].topic);
    }
  }

  lemma NoneYet()
    ensures Plain([], [])
  {
  }

  /** The ids lie in the windows in which the comparators order them. */
  ghost predicate Fits(pipeLo: nat, sidLo: nat, op: Op) {
    match op
    case Insert(_, _, pid) => InWindow(pipeLo, pid)
    case Delete(_, pid) => InWindow(pipeLo, pid)
    case Cache(_, sid, pid) => InWindow(sidLo, sid) && InWindow(pipeLo, pid)
    case Forget(_, sid) => InWindow(sidLo, sid)
    case Restore(_, sid, pid) => InWindow(sidLo, sid) && InWindow(pipeLo, pid)
  }

  /** A walk that stops early is cut short there; without wildcards the two are the same. */
  lemma StopsIff(db: DbTree, f: Path)
    requires db.Valid()
    ensures forall k: nat :: db.StopsAt(f, k) ==> CutAt(db.nodes.Keys, f, k)
    ensures db.Stops(f) ==> CutShort(db.nodes.Keys, f)
    ensures WildcardFree(f) && CutShort(db.nodes.Keys, f) ==> db.Stops(f)
  {
    hide DbTree.Valid, Linked;
    db.ShapeOf();
    forall k: nat | db.StopsAt(f, k) ensures CutAt(db.nodes.Keys, f, k) {
      forall q | q in db.nodes && f[..k] <= q ensures q == f[..k] { NothingBelow(db, f[..k], q); }
    }
    if WildcardFree(f) && CutShort(db.nodes.Keys, f) {
      var k :| CutAt(db.nodes.Keys, f, k);
      Childless(db, f[..k]);
      forall j | 0 <= j < k ensures db.Passes(f[..j], f[j]) {
        assert f[..k][..j + 1] == f[..j + 1];
        db.PrefixClosed(f[..k], j + 1);
        db.InnerHasChild(f, j);
      }
      assert db.StopsAt(f, k);
    }
  }

  lemma NothingBelow(db: DbTree, p: Path, q: Path)
    requires db.Shape() && p in db.nodes && db.nodes[p].child == [] && p <= q && q in db.nodes
    ensures q == p
  {
    if q != p {
      assert q[..|p|] == p;
      db.LeafMissing(q, |p|);
    }
  }

  lemma Childless(db: DbTree, p: Path)
    requires db.Shape() && p in db.nodes && forall q :: q in db.nodes && p <= q ==> q == p
    ensures db.nodes[p].child == []
  {
    hide Linked;
    var n := db.nodes[p];
    assert forall t :: p <= Kid(p, t);
    if n.child != [] { db.FirstKid(n); }
  }

  /** The tree holds the records, and has a node for each of the paths. */
  ghost predicate Recorded(db: DbTree, r: Records) reads db {
    db.flat == r.flat && db.nodes.Keys == r.keys
  }

  /** That is where the tree puts it. */
  lemma Landed(db: DbTree, f: Path, restart: nat)
    requires db.Valid() && restart <= 1
    ensures forall at :: db.Lands(f, restart, at) ==> PutAt(db.nodes.Keys, f, restart, at)
  {
    hide DbTree.Valid;
    StopsIff(db, f);
    forall at | db.Lands(f, restart, at) ensures PutAt(db.nodes.Keys, f, restart, at) {
      db.LandsInPlaceIff(f, restart, at);
      if at != f {
        var k: nat :| db.StopsAt(f, k);
        assert CutAt(db.nodes.Keys, f, k);
      }
    }
  }

  lemma WayEnds(p: Path)
    ensures p in Way(p)
  {
    assert p[..|p|] == p;
  }

  /** Creating the nodes on the way to `at` adds exactly those. */
  lemma WayAdded(db: DbTree, keys: set<Path>, at: Path)
    requires db.Valid() && at in db.nodes && keys <= db.nodes.Keys
    requires forall p :: p in db.nodes && p !in keys ==> p <= at
    ensures db.nodes.Keys == keys + Way(at)
  {
    hide DbTree.Valid, Linked;
    db.ShapeOf();
    forall p | p in Way(at) ensures p in db.nodes {
      var k :| 0 <= k <= |at| && p == at[..k];
      db.PrefixClosed(at, k);
    }
    forall p | p in db.nodes && p !in keys ensures p in Way(at) { assert p == at[..|p|]; }
  }

  /** What is left after pruning is what is anchored. */
  lemma PrunedKeys(db: DbTree, keys: set<Path>, f: Path)
    requires db.Valid() && db.Tidy(f, 0, |f|) && db.nodes.Keys <= keys
    requires forall x :: x in keys && x !in db.nodes ==> x <= f && x != []
    ensures db.nodes.Keys == set k | k in keys && (k == [] || Anchored(keys, db.flat, f, k))
  {
    hide DbTree.Valid, Anchored, DbTree.Tidy;
    forall p | p in keys && p != [] ensures p in db.nodes <==> Anchored(keys, db.flat, f, p) {
      AnchoredStay(db, keys, f, p);
    }
  }

  /** The three removals. */
  method Remove(db: DbTree, topic: string, sid: Id, pid: Id, flag: DeleteFlag, ghost r: Records)
    requires db.Valid() && db.flat.retained == map[] && InWindow(db.sidLo, sid) && InWindow(db.pipeLo, pid)
    modifies db`nodes, db`flat, db.nodes.Values
    ensures db.Valid() && db.flat.retained == map[] && fresh(db.nodes.Values - old(db.nodes.Values))
    ensures old(Recorded(db, r)) ==> Recorded(db, Removed(r, Split(topic), sid, pid, flag))
    ensures old(db.Minimal()) ==> db.Minimal()
  {
    hide DbTree.Valid, DbTree.Minimal, Split, Kept, DbTree.Tidy, Anchored;
    var p := TopicParse(topic);
    var c := db.SearchAndDelete(topic, sid, pid, flag);
    if p in old(db.nodes) {
      NothingRetained(Pulled(old(db.flat), p, sid, pid, flag), db.nodes.Keys);
      PrunedKeys(db, old(db.nodes).Keys, p);
    }
  }

  lemma RemovedSame(r: Records, p: Path, sid: Id, pid: Id, x: Id, flag: DeleteFlag)
    ensures flag.DeleteClient? ==> Removed(r, p, x, pid, flag) == Removed(r, p, sid, pid, flag)
    ensures flag.DeleteSession? ==> Removed(r, p, sid, x, flag) == Removed(r, p, sid, pid, flag)
  {
    hide Anchored;
  }

  method InsertOp(db: DbTree, op: Op, restart: nat, ghost r: Records) returns (ghost at: Path)
    requires db.Valid() && db.flat.retained == map[] && op.Insert? && Fits(db.pipeLo, db.sidLo, op) && restart <= 1
    modifies db`nodes, db`flat, db.nodes.Values
    ensures db.Valid() && db.flat.retained == map[] && fresh(db.nodes.Values - old(db.nodes.Values))
    ensures at == Split(op.topic) <==> restart == 1 || !old(db.Stops(Split(op.topic)))
    ensures old(Recorded(db, r)) ==> Landing(r, op, restart, at) && Recorded(db, StepAt(r, op, at))
    ensures old(db.Minimal()) ==> db.Minimal()
  {
    hide DbTree.Valid, DbTree.Minimal, Split, Kept, DbTree.Lands, DbTree.Stops, PutAt, Way;
    Landed(db, Split(op.topic), restart);
    at := db.InsertClient(op.topic, op.ctxt, op.pid, restart);
    WayAdded(db, old(db.nodes).Keys, at);
  }

  method RestoreOp(db: DbTree, op: Op, restart: nat, ghost r: Records) returns (ghost at: Path)
    requires db.Valid() && db.flat.retained == map[] && op.Restore? && Fits(db.pipeLo, db.sidLo, op) && restart <= 1
    modifies db`nodes, db`flat, db.nodes.Values
    ensures db.Valid() && db.flat.retained == map[] && fresh(db.nodes.Values - old(db.nodes.Values))
    ensures at == Split(op.topic) <==> restart == 1 || !old(db.Stops(Split(op.topic)))
    ensures old(Recorded(db, r)) ==> Landing(r, op, restart, at) && Recorded(db, StepAt(r, op, at))
    ensures old(Recorded(db, r)) && Named(r, op, at) && old(db.Minimal()) ==> db.Minimal()
  {
    hide DbTree.Valid, DbTree.Minimal, Split, Kept, DbTree.Lands, DbTree.Stops, PutAt, Way;
    Landed(db, Split(op.topic), restart);
    var c;
    c, at := db.RestoreSession(op.topic, op.sid, op.pid, restart);
    WayAdded(db, old(db.nodes).Keys, at);
  }

  /**
   * One operation; `sid0` and `pid0` stand for the ids that a removal does not look at. It works at `at`, and
   * so does what it does at its filter if and only if it is not an insertion whose walk stops early.
   */
  method Do(db: DbTree, op: Op, restart: nat, sid0: Id, pid0: Id, ghost r: Records) returns (ghost at: Path)
    requires db.Valid() && db.flat.retained == map[] && Fits(db.pipeLo, db.sidLo, op) && restart <= 1
    requires InWindow(db.sidLo, sid0) && InWindow(db.pipeLo, pid0)
    modifies db`nodes, db`flat, db.nodes.Values
    ensures db.Valid() && db.flat.retained == map[] && fresh(db.nodes.Values - old(db.nodes.Values))
    ensures at == Split(op.topic) <==>
      !(op.Insert? || op.Restore?) || restart == 1 || !old(db.Stops(Split(op.topic)))
    ensures old(Recorded(db, r)) ==> Landing(r, op, restart, at) && Recorded(db, StepAt(r, op, at))
    ensures old(Recorded(db, r)) ==>
      (Recorded(db, StepAt(r, op, Split(op.topic))) <==>
       !(op.Insert? || op.Restore?) || restart == 1 || !old(db.Stops(Split(op.topic))))
    ensures old(Recorded(db, r)) && Named(r, op, at) && old(db.Minimal()) ==> db.Minimal()
  {
    hide DbTree.Valid, DbTree.Minimal, Split, CutShort, Removed, Way, DbTree.Stops;
    at := Split(op.topic);
    match op {
      case Insert(_, _, _) =>
        at := InsertOp(db, op, restart, r);
      case Delete(topic, pid) =>
        RemovedSame(r, Split(topic), sid0, pid, 0, DeleteClient);
        Remove(db, topic, sid0, pid, DeleteClient, r);
      case Cache(topic, sid, pid) =>
        Remove(db, topic, sid, pid, CacheSession, r);
      case Forget(topic, sid) =>
        RemovedSame(r, Split(topic), sid, pid0, 0, DeleteSession);
        Remove(db, topic, sid, pid0, DeleteSession, r);
      case Restore(_, _, _) =>
        at := RestoreOp(db, op, restart, r);
    }
    if old(Recorded(db, r)) {
      StepInPlaceIff(r, op, restart, at);
      SameRecords(db, StepAt(r, op, at), StepAt(r, op, Split(op.topic)));
    }
  }

  lemma SameRecords(db: DbTree, a: Records, b: Records)
    requires Recorded(db, a)
    ensures Recorded(db, b) <==> a == b
  {
  }

  /**
   * After any run from the empty tree it is sound, and holds exactly the records and nodes of the run at
   * the places where the operations worked; as intended that is the plain run. If restores name cached
   * sessions it is minimal.
   */
  method Drive(ghost pipeLo: nat, ghost sidLo: nat, ops: seq<Op>, restart: nat, sid0: Id, pid0: Id)
    returns (db: DbTree, ghost trace: seq<Path>)
    requires restart <= 1 && forall i :: 0 <= i < |ops| ==> Fits(pipeLo, sidLo, ops[i])
    requires InWindow(sidLo, sid0) && InWindow(pipeLo, pid0)
    ensures fresh(db) && fresh(db.nodes.Values) && db.Valid() && db.queue == []
    ensures db.pipeLo == pipeLo && db.sidLo == sidLo
    ensures Traced(ops, restart, trace) && Recorded(db, RunAt(ops, trace))
    ensures Plain(ops, trace) <==> InPlace(ops, trace)
    ensures restart == 1 || SmoothRun(ops, restart) ==> Recorded(db, Run(ops))
    ensures Sane(ops, trace) ==> db.Minimal()
  {
    hide DbTree.Valid, DbTree.Minimal, Fits, StepAt, InWindow, Landing, Named, Plain, InPlace, DbTree.Stops, Split;
    db := new DbTree(pipeLo, sidLo);
    trace := [];
    for i := 0 to |ops|
      invariant fresh(db) && fresh(db.nodes.Values) && db.Valid() && db.queue == [] && db.flat.retained == map[]
      invariant db.pipeLo == pipeLo && db.sidLo == sidLo
      invariant Traced(ops[..i], restart, trace) && Recorded(db, RunAt(ops[..i], trace))
      invariant Sane(ops[..i], trace) ==> db.Minimal()
    {
      assert ops[..i + 1][..i] == ops[..i];
      ghost var at := Do(db, ops[i], restart, sid0, pid0, RunAt(ops[..i], trace));
      assert (trace + [at])[..i] == trace;
      trace := trace + [at];
    }
    assert ops[..|ops|] == ops;
    InPlaceIff(ops, restart, trace);
    IntendedIsSmooth(ops);
  }

  /** As intended every run is smooth. */
  lemma {:induction false} IntendedIsSmooth(ops: seq<Op>)
    ensures SmoothRun(ops, 1)
  {
    if ops != [] { IntendedIsSmooth(ops[..|ops| - 1]); }
  }

  /**
   * A publish after any run finds exactly the records whose filters, where they were put, match the topic,
   * in the order of those filters, and queues one message for each absent session with such a filter. As
   * written it serves a pipe twice if and only if one below the first pipe met has two such filters.
   */
  method PublishAfter(ghost pipeLo: nat, ghost sidLo: nat, ops: seq<Op>, restart: nat, append: bool, topic: string,
                      msg: Msg, sid0: Id, pid0: Id)
    returns (ctxts: seq<Ctxt>, queue: seq<Entry<seq<Msg>>>, ghost found: seq<Client>, ghost trace: seq<Path>)
    requires restart <= 1 && forall i :: 0 <= i < |ops| ==> Fits(pipeLo, sidLo, ops[i])
    requires InWindow(sidLo, sid0) && InWindow(pipeLo, pid0) && WildcardFree(Split(topic))
    ensures ctxts == Ctxts(if append then FirstSeen(found) else Passing(found))
    ensures Traced(ops, restart, trace)
    ensures Gathered(RunAt(ops, trace).flat.live, Split(topic), found)
    ensures forall e :: e in found <==> Subscribed(RunAt(ops, trace).flat.live, Split(topic), e)
    ensures OncePerId(Passing(found)) <==> !LowPair(RunAt(ops, trace).flat.live, Split(topic))
    ensures forall id: Id ::
      Backlog(queue, id) == if id in Listeners(RunAt(ops, trace).flat.sess, Split(topic)) then [msg] else []
    ensures restart == 1 || SmoothRun(ops, restart) ==> RunAt(ops, trace) == Run(ops)
  {
    hide DbTree.Valid, DbTree.Minimal, Split, Fits, InWindow, Sane, SmoothRun, Run, RunAt, Traced, Plain, InPlace;
    hide Listeners, Subscribed, FirstSeen, Passing, Gathered, LowPair, LowRepeat, OncePerId;
    var db;
    db, trace := Drive(pipeLo, sidLo, ops, restart, sid0, pid0);
    var cnt;
    ctxts, cnt, found := SearchClient(db, topic, msg, 0, append);
    queue := db.queue;
    LowRepeatIff(db.flat.live, Split(topic), found);
    PassingOnceIff(found);
  }

  /** Pipes 9 and 3 subscribe to everything, pipes 8 and 3 to `a`. */
  const OVERLAPPING: seq<Op> := [Insert("#", 90, 9), Insert("#", 30, 3), Insert("a", 80, 8), Insert("a", 30, 3)]

  lemma RunSnoc(ops: seq<Op>, op: Op)
    ensures Run(ops + [op]) == StepAt(Run(ops), op, Split(op.topic))
  {
    hide StepAt, Split;
    assert (ops + [op])[..|ops|] == ops;
  }

  lemma OneLevel(t: string)
    requires |t| == 1 && t[0] != SLASH
    ensures Split(t) == [t] && Way(Split(t)) == {[], [t]}
  {
    assert NextSlash(t, 1) == 1 && NextSlash(t, 0) == 1 && t[0..] == t;
    assert [t][..0] == [] && [t][..1] == [t];
    assert [t][..0] in Way([t]) && [t][..1] in Way([t]);
  }

  lemma OverlappingRecords()
    ensures Run(OVERLAPPING).flat.live == map[([WELL], 9) := 90, ([WELL], 3) := 30, (["a"], 8) := 80, (["a"], 3) := 30]
  {
    hide Split, Way, Run;
    OneLevel(WELL);
    OneLevel("a");
    var ops := OVERLAPPING;
    assert Run([]) == NOTHING by { FirstRun(); }
    RunSnoc([], ops[0]);
    assert [] + [ops[0]] == ops[..1] && ops[..1] + [ops[1]] == ops[..2] &&
      ops[..2] + [ops[2]] == ops[..3] && ops[..3] + [ops[3]] == ops;
    RunSnoc(ops[..1], ops[1]);
    RunSnoc(ops[..2], ops[2]);
    RunSnoc(ops[..3], ops[3]);
  }

  /** Pipe 3 subscribes to everything, pipes 9 and 3 to `a`. */
  const REPEATED: seq<Op> := [Insert("#", 30, 3), Insert("a", 90, 9), Insert("a", 30, 3)]

  lemma RepeatedRecords()
    ensures Run(REPEATED).flat.live == map[([WELL], 3) := 30, (["a"], 9) := 90, (["a"], 3) := 30]
  {
    hide Split, Way, Run;
    OneLevel(WELL);
    OneLevel("a");
    var ops := REPEATED;
    assert Run([]) == NOTHING by { FirstRun(); }
    RunSnoc([], ops[0]);
    assert [] + [ops[0]] == ops[..1] && ops[..1] + [ops[1]] == ops[..2] && ops[..2] + [ops[2]] == ops;
    RunSnoc(ops[..1], ops[1]);
    RunSnoc(ops[..2], ops[2]);
  }

  lemma FirstRun()
    ensures Run([]) == NOTHING
  {
  }

  /** A publish to `a` meets `#` before `a`. */
  lemma WellFirst()
    ensures Matches([WELL], ["a"]) && Matches(["a"], ["a"]) && WildcardFree(["a"])
    ensures Earlier([WELL], ["a"]) && !Earlier(["a"], [WELL])
  {
    assert Parent([WELL]) == [] == Parent(["a"]);
    assert WELL[0] != "a"[0] && PLUS[0] != "a"[0];
  }

  lemma OverlappingTrail(live: map<Key, Ctxt>)
    requires live == map[([WELL], 9) := 90, ([WELL], 3) := 30, (["a"], 8) := 80, (["a"], 3) := 30]
    ensures Trail(live, ["a"], [([WELL], 9), ([WELL], 3), (["a"], 8), (["a"], 3)])
  {
    hide Matches, Earlier;
    WellFirst();
  }

  lemma RepeatedTrail(live: map<Key, Ctxt>)
    requires live == map[([WELL], 3) := 30, (["a"], 9) := 90, (["a"], 3) := 30]
    ensures Trail(live, ["a"], [([WELL], 3), (["a"], 9), (["a"], 3)])
  {
    hide Matches, Earlier;
    WellFirst();
  }

  /** After the first run a publish to `a`, as written, serves pipe 3 twice. */
  method ServedTwice() returns (db: DbTree, ctxts: seq<Ctxt>, ghost found: seq<Client>)
    ensures fresh(db) && db.Valid() && Recorded(db, Run(OVERLAPPING)) && Gathered(db.flat.live, ["a"], found)
    ensures LowPair(db.flat.live, ["a"]) && ctxts == Ctxts(Passing(found)) == [90, 30, 80, 30]
  {
    hide DbTree.Valid, DbTree.Minimal, Split, Run, RunAt, Traced, SmoothRun, Sane, Plain, InPlace;
    hide Passing, LowRepeat, LowPair, Gathered, Trail, Backlog, Listeners, Subscribed, WildcardFree;
    OverlappingRecords();
    OneLevel("a");
    WellFirst();
    ghost var trace;
    db, trace := Drive(0, 0, OVERLAPPING, 1, 0, 0);
    var cnt;
    ctxts, cnt, found := SearchClient(db, "a", 1, 0, false);
    ghost var live := Run(OVERLAPPING).flat.live;
    OverlappingTrail(live);
    GatheredAre(live, ["a"], [([WELL], 9), ([WELL], 3), (["a"], 8), (["a"], 3)], found);
    TwicePassing(found);
    LowRepeatIff(live, ["a"], found);
  }

  lemma TwicePassing(s: seq<Client>)
    requires s == [Entry(9, 90), Entry(3, 30), Entry(8, 80), Entry(3, 30)]
    ensures Passing(s) == s && LowRepeat(s) && Ctxts(s) == [90, 30, 80, 30]
  {
    hide Passing;
    assert s[1].id == s[3].id < s[0].id;
    forall i | 0 <= i < 4 ensures !HasId(s[..i], s[i].id) || s[i].id < s[0].id {}
    EachPasses(s);
  }

  /** Records that are new, or whose id is below the first one, all pass. */
  lemma {:induction false} EachPasses(s: seq<Client>)
    requires forall i :: 0 <= i < |s| ==> !HasId(s[..i], s[i].id) || s[i].id < s[0].id
    ensures Passing(s) == s
  {
    if s != [] {
      var p := s[..|s| - 1];
      forall i | 0 <= i < |p| ensures !HasId(p[..i], p[i].id) || p[i].id < p[0].id { assert p[..i] == s[..i]; }
      EachPasses(p);
      assert p + [s[|p|]] == s;
    }
  }

  /** After the second run it serves each pipe once, since the lowest pipe is met first. */
  method ServedOnce() returns (db: DbTree, ctxts: seq<Ctxt>, ghost found: seq<Client>)
    ensures fresh(db) && db.Valid() && Recorded(db, Run(REPEATED)) && Gathered(db.flat.live, ["a"], found)
    ensures !LowPair(db.flat.live, ["a"]) && ctxts == Ctxts(Passing(found)) == [30, 90]
  {
    hide DbTree.Valid, DbTree.Minimal, Split, Run, RunAt, Traced, SmoothRun, Sane, Plain, InPlace;
    hide Passing, LowRepeat, LowPair, Gathered, Trail, Backlog, Listeners, Subscribed, WildcardFree;
    RepeatedRecords();
    OneLevel("a");
    WellFirst();
    ghost var trace;
    db, trace := Drive(0, 0, REPEATED, 1, 0, 0);
    var cnt;
    ctxts, cnt, found := SearchClient(db, "a", 1, 0, false);
    ghost var live := Run(REPEATED).flat.live;
    RepeatedTrail(live);
    GatheredAre(live, ["a"], [([WELL], 3), (["a"], 9), (["a"], 3)], found);
    OncePassing(found);
    LowRepeatIff(live, ["a"], found);
  }

  lemma OncePassing(s: seq<Client>)
    requires s == [Entry(3, 30), Entry(9, 90), Entry(3, 30)]
    ensures Passing(s) == [Entry(3, 30), Entry(9, 90)] && !LowRepeat(s)
    ensures Ctxts([Entry(3, 30), Entry(9, 90)]) == [30, 90]
  {
    hide Passing;
    EachPasses(s[..2]);
    assert s[..2][0].id == 3 && HasId(s[..2], 3);
    PassingLast(s);
  }

  lemma PassingLast(s: seq<Client>)
    requires s != [] && HasId(s[..|s| - 1], s[|s| - 1].id) && s[|s| - 1].id >= s[0].id
    ensures Passing(s) == Passing(s[..|s| - 1])
  {
  }
}
