/** Whole runs of the retained tree: which messages are left, and when they are those of a plain map. */
module RetainRuns {
  import opened Strings
  import opened Topics
  import opened Nodes
  import opened Tree
  import opened TreeLaws
  import opened Order
  import opened Retain
  import opened RetainDelete
  import TreeRuns

  datatype Op = Put(topic: string, m: Msg) | Drop(topic: string)

  /** Where an operation worked; a removal may miss its node. */
  datatype Place = At(path: Path) | Missed

  /** The messages, and the paths that have a node. */
  datatype Store = Store(msgs: map<Path, Msg>, keys: set<Path>)

  const EMPTY: Store := Store(map[], {[]})

  /** Some node at or below `p` is not on the way to `f`. */
  ghost predicate Held(keys: set<Path>, f: Path, p: Path) {
    p == [] || exists q :: q in keys && p <= q && !(q <= f)
  }

  ghost function StepAt(s: Store, op: Op, place: Place): Store {
    if place.Missed? then s
    else
      match op
      case Put(_, m) => Store(s.msgs[place.path := m], s.keys + TreeRuns.Way(place.path))
      case Drop(_) =>
        Store(map p | p in s.msgs && p != place.path && Held(s.keys, place.path, p) :: s.msgs[p],
              set p | p in s.keys && Held(s.keys, place.path, p))
  }

  ghost function RunAt(ops: seq<Op>, trace: seq<Place>): Store
    requires |trace| == |ops|
  {
    if ops == [] then EMPTY
    else
      var n := |ops| - 1;
      StepAt(RunAt(ops[..n], trace[..n]), ops[n], trace[n])
  }

  /** The plain map from topics to messages. */
  ghost function PlainStep(msgs: map<Path, Msg>, op: Op): map<Path, Msg> {
    match op
    case Put(topic, m) => msgs[Split(topic) := m]
    case Drop(topic) => msgs - {Split(topic)}
  }

  ghost function PlainRun(ops: seq<Op>): map<Path, Msg> {
    if ops == [] then map[] else PlainStep(PlainRun(ops[..|ops| - 1]), ops[|ops| - 1])
  }

  /** Where an operation may work; without wildcards there is no choice. */
  ghost predicate Landing(s: Store, op: Op, restart: nat, place: Place) {
    var f := Split(op.topic);
    if op.Put? then place.At? && TreeRuns.PutAt(s.keys, f, restart, place.path)
    else if place.At? then place.path == f && f in s.keys
    else WildcardFree(f) ==> f !in s.keys
  }

  ghost predicate Traced(ops: seq<Op>, restart: nat, trace: seq<Place>) {
    && |trace| == |ops|
    && (ops == [] ||
        var n := |ops| - 1;
        Traced(ops[..n], restart, trace[..n]) && Landing(RunAt(ops[..n], trace[..n]), ops[n], restart, trace[n]))
  }

  /**
   * The operation leaves the messages of other topics alone: a message is put at its topic, and a removal
   * that finds its node has no message above it whose node leads nowhere else.
   */
  ghost predicate Harmless(s: Store, op: Op, place: Place) {
    var f := Split(op.topic);
    if op.Put? then place == At(f)
    else if place.At? then forall p :: p in s.msgs && p <= f && p != f ==> Held(s.keys, f, p)
    else f !in s.msgs
  }

  ghost predicate HarmlessRun(ops: seq<Op>, trace: seq<Place>)
    requires |trace| == |ops|
  {
    forall i :: 0 <= i < |ops| ==> Harmless(RunAt(ops[..i], trace[..i]), ops[i], trace[i])
  }

  /** The messages are those of the plain map all the way. */
  ghost predicate Plain(ops: seq<Op>, trace: seq<Place>)
    requires |trace| == |ops|
  {
    forall i :: 0 <= i <= |ops| ==> RunAt(ops[..i], trace[..i]).msgs == PlainRun(ops[..i])
  }

  lemma StepPlainIff(s: Store, op: Op, restart: nat, place: Place)
    requires s.msgs.Keys <= s.keys && Landing(s, op, restart, place)
    ensures StepAt(s, op, place).msgs == PlainStep(s.msgs, op) <==> Harmless(s, op, place)
  {
    hide Split, TreeRuns.Way, TreeRuns.PutAt, Held;
    var f := Split(op.topic);
    var left, plain := StepAt(s, op, place).msgs, PlainStep(s.msgs, op);
    if op.Put? {
      if place.path != f {
        TreeRuns.PutElsewhere(s.keys, f, restart, place.path);
        assert place.path in left && place.path !in plain;
      }
    } else if place.At? {
      forall p | p in s.msgs && !(p <= f) ensures Held(s.keys, f, p) { HeldItself(s.keys, f, p); }
      assert forall p :: p in plain <==> p in s.msgs && p != f;
      assert forall p :: p in left <==> p in plain && Held(s.keys, f, p);
      if left == plain {
        forall p | p in s.msgs && p <= f && p != f ensures Held(s.keys, f, p) { assert p in plain; }
      }
    }
  }

  lemma HeldItself(keys: set<Path>, f: Path, p: Path)
    requires p in keys && !(p <= f)
    ensures Held(keys, f, p)
  {
    assert p <= p;
  }

  /** Messages are at nodes. */
  lemma {:induction false} AtNodes(ops: seq<Op>, trace: seq<Place>)
    requires |trace| == |ops|
    ensures RunAt(ops, trace).msgs.Keys <= RunAt(ops, trace).keys
  {
    hide Held, TreeRuns.Way;
    if ops != [] {
      var n := |ops| - 1;
      AtNodes(ops[..n], trace[..n]);
      if trace[n].At? { TreeRuns.WayEnds(trace[n].path); }
    }
  }

  lemma PlainSnoc(ops: seq<Op>, trace: seq<Place>)
    requires |trace| == |ops| > 0
    ensures var n := |ops| - 1;
      Plain(ops, trace) <==> Plain(ops[..n], trace[..n]) && RunAt(ops, trace).msgs == PlainRun(ops)
  {
    hide RunAt, PlainRun;
    var n := |ops| - 1;
    assert ops[..n + 1] == ops && trace[..n + 1] == trace;
    assert forall i :: 0 <= i <= n ==> ops[..n][..i] == ops[..i] && trace[..n][..i] == trace[..i];
  }

  lemma HarmlessSnoc(ops: seq<Op>, trace: seq<Place>)
    requires |trace| == |ops| > 0
    ensures var n := |ops| - 1;
      HarmlessRun(ops, trace) <==>
      HarmlessRun(ops[..n], trace[..n]) && Harmless(RunAt(ops[..n], trace[..n]), ops[n], trace[n])
  {
    hide RunAt, Harmless;
    var n := |ops| - 1;
    assert forall i :: 0 <= i < n ==> ops[..n][..i] == ops[..i] && trace[..n][..i] == trace[..i];
  }

  /** A run keeps to the plain map if and only if none of its operations does harm. */
  lemma {:induction false} PlainIff(ops: seq<Op>, restart: nat, trace: seq<Place>)
    requires Traced(ops, restart, trace)
    ensures Plain(ops, trace) <==> HarmlessRun(ops, trace)
    ensures Plain(ops, trace) ==> RunAt(ops, trace).msgs == PlainRun(ops)
  {
    hide StepAt, PlainStep, Plain, Harmless, HarmlessRun, Landing;
    if ops == [] {
      NoneYet();
    } else {
      var n := |ops| - 1;
      PlainIff(ops[..n], restart, trace[..n]);
      PlainSnoc(ops, trace);
      HarmlessSnoc(ops, trace);
      AtNodes(ops[..n], trace[..n]);
      StepPlainIff(RunAt(ops[..n], trace[..n]), ops[n], restart, trace[n]);
    }
  }

  lemma NoneYet()
    ensures Plain([], []) && HarmlessRun([], [])
  {
  }

  /** The tree holds the messages and nothing else, and has a node for each of the paths. */
  ghost predicate Recorded(db: DbTree, s: Store) reads db {
    db.flat == Flat(map[], map[], s.msgs) && db.nodes.Keys == s.keys
  }

  lemma AnchoredIsHeld(keys: set<Path>, flat: Flat, f: Path)
    requires flat.live == map[] && flat.sess == map[]
    ensures forall p :: p == [] || Anchored(keys, flat, f, p) <==> Held(keys, f, p)
  {
    assert forall q :: !Loaded(flat, q);
  }

  /** One operation, with the message that it returns. */
  method Do(db: DbTree, op: Op, restart: nat, ghost s: Store) returns (was: Msg, ghost place: Place)
    requires db.Valid() && Recorded(db, s) && restart <= 1 && (op.Put? ==> op.m != NULL)
    modifies db`nodes, db`flat, db.nodes.Values
    ensures db.Valid() && fresh(db.nodes.Values - old(db.nodes.Values))
    ensures Landing(s, op, restart, place) && Recorded(db, StepAt(s, op, place))
    ensures was == if place.At? && place.path in s.msgs then s.msgs[place.path] else NULL
  {
    hide DbTree.Valid, Split, Kept, DbTree.Lands, DbTree.Stops, DbTree.Straight, TreeRuns.PutAt, TreeRuns.Way;
    hide Anchored, Held;
    match op
    case Put(topic, m) =>
      TreeRuns.Landed(db, Split(topic), restart);
      ghost var at;
      was, at := db.InsertRetain(topic, m, restart);
      RetainedInTree(db);
      TreeRuns.WayAdded(db, s.keys, at);
      place := At(at);
    case Drop(topic) =>
      RetainedInTree(db);
      StraightInTree(db, Split(topic));
      place := if db.Straight(Split(topic)) then At(Split(topic)) else Missed;
      AnchoredIsHeld(s.keys, db.flat, Split(topic));
      was := DeleteRetain(db, topic);
      assert db.flat.retained == StepAt(s, op, place).msgs;
  }

  lemma StraightInTree(db: DbTree, f: Path)
    ensures db.Straight(f) ==> f in db.nodes
  {
  }

  /**
   * After any run from the empty tree exactly the messages of the run are left. They are those of the plain
   * map all the way if and only if no operation does harm.
   */
  method Drive(ops: seq<Op>, restart: nat) returns (db: DbTree, ghost trace: seq<Place>)
    requires restart <= 1 && forall i :: 0 <= i < |ops| && ops[i].Put? ==> ops[i].m != NULL
    ensures fresh(db) && fresh(db.nodes.Values) && db.Valid()
    ensures Traced(ops, restart, trace) && Recorded(db, RunAt(ops, trace))
    ensures Plain(ops, trace) <==> HarmlessRun(ops, trace)
    ensures HarmlessRun(ops, trace) ==> db.flat.retained == PlainRun(ops)
  {
    hide DbTree.Valid, StepAt, Landing, Plain, HarmlessRun, PlainRun;
    db := new DbTree(0, 0);
    trace := [];
    for i := 0 to |ops|
      invariant fresh(db) && fresh(db.nodes.Values) && db.Valid()
      invariant Traced(ops[..i], restart, trace) && Recorded(db, RunAt(ops[..i], trace))
    {
      assert ops[..i + 1][..i] == ops[..i];
      ghost var place;
      var was;
      was, place := Do(db, ops[i], restart, RunAt(ops[..i], trace));
      assert (trace + [place])[..i] == trace;
      trace := trace + [place];
    }
    assert ops[..|ops|] == ops;
    PlainIff(ops, restart, trace);
  }

  /** Messages for `a` and `a/b`, and the second one is deleted. */
  const LOSING: seq<Op> := [Put("a", 1), Put("a/b", 2), Drop("a/b")]

  const BOTH: Store := Store(map[["a"] := 1, ["a", "b"] := 2], {[], ["a"], ["a", "b"]})

  lemma TracedSnoc(ops: seq<Op>, op: Op, trace: seq<Place>)
    requires Traced(ops + [op], 1, trace)
    ensures |trace| == |ops| + 1
    ensures Traced(ops, 1, trace[..|ops|]) && Landing(RunAt(ops, trace[..|ops|]), op, 1, trace[|ops|])
    ensures RunAt(ops + [op], trace) == StepAt(RunAt(ops, trace[..|ops|]), op, trace[|ops|])
    ensures PlainRun(ops + [op]) == PlainStep(PlainRun(ops), op)
  {
    hide StepAt, PlainStep, Landing;
    assert (ops + [op])[..|ops|] == ops;
  }

  lemma WayDown(t: string, u: string)
    ensures TreeRuns.Way([t]) == {[], [t]} && TreeRuns.Way([t, u]) == {[], [t], [t, u]}
  {
    var p, q := [t], [t, u];
    assert p[..0] == [] && p[..1] == p && q[..0] == [] && q[..1] == p && q[..2] == q;
    assert p[..0] in TreeRuns.Way(p) && p[..1] in TreeRuns.Way(p);
    assert q[..0] in TreeRuns.Way(q) && q[..1] in TreeRuns.Way(q) && q[..2] in TreeRuns.Way(q);
  }

  lemma BothRun(trace: seq<Place>)
    requires Traced(LOSING[..2], 1, trace)
    ensures RunAt(LOSING[..2], trace) == BOTH && PlainRun(LOSING[..2]) == BOTH.msgs
  {
    hide Split, TreeRuns.Way, RunAt, Traced, PlainRun;
    TwoLevels();
    WayDown("a", "b");
    FirstRun();
    var ops := LOSING;
    assert ops[..1] + [ops[1]] == ops[..2] && [] + [ops[0]] == ops[..1];
    TracedSnoc(ops[..1], ops[1], trace);
    TracedSnoc([], ops[0], trace[..1]);
  }

  lemma FirstRun()
    ensures RunAt([], []) == EMPTY && PlainRun([]) == map[]
  {
  }

  /** The run ends without messages, where the plain map keeps the one for `a`; the removal does harm. */
  lemma LosingRun(trace: seq<Place>)
    requires Traced(LOSING, 1, trace)
    ensures RunAt(LOSING, trace).msgs == map[] && PlainRun(LOSING) == map[["a"] := 1]
    ensures !HarmlessRun(LOSING, trace)
  {
    hide Split, TreeRuns.Way, RunAt, Traced, PlainRun, HarmlessRun;
    TwoLevels();
    var ops := LOSING;
    assert ops[..2] + [ops[2]] == ops;
    TracedSnoc(ops[..2], ops[2], trace);
    BothRun(trace[..2]);
    assert ["a"] <= ["a", "b"] && [] <= ["a", "b"];
    assert !Held(BOTH.keys, ["a", "b"], ["a"]);
    assert ["a"] in PlainRun(ops);
    PlainIff(ops, 1, trace);
  }

  /** Deleting the message of `a/b` loses that of `a`: a lookup of `a` finds it before, and nothing after. */
  method LostAncestor() returns (db: DbTree, before: seq<Msg>, after: seq<Msg>)
    ensures fresh(db) && db.Valid() && db.flat.retained == map[] && PlainRun(LOSING) == map[["a"] := 1]
    ensures exists trace ::
      Traced(LOSING, 1, trace) && Recorded(db, RunAt(LOSING, trace)) && !HarmlessRun(LOSING, trace)
    ensures 1 in before && after == []
  {
    hide DbTree.Valid, Split, LookedUp, AllParents, MessagesAt, FirstWell, Traced, RunAt, HarmlessRun, Plain, PlainRun;
    TwoLevels();
    ghost var trace, hits;
    db, trace := Drive(LOSING[..2], 1);
    BothRun(trace);
    before, hits := FindRetain(db, "a", false);
    JustA(db.nodes);
    assert ["a"] in db.flat.retained;
    db, trace := Drive(LOSING, 1);
    LosingRun(trace);
    after, hits := FindRetain(db, "a", false);
    JustA(db.nodes);
    FirstMessage(after);
    assert forall m :: m !in after;
  }

  lemma FirstMessage(s: seq<Msg>)
    ensures s != [] ==> s[0] in s
  {
  }

  lemma JustA(nodes: map<Path, Node>)
    ensures FirstWell(["a"]) == 1 && forall p :: LookedUp(nodes, ["a"], p) <==> p == ["a"]
  {
    assert FirstWell(["a"][1..]) == 0;
    forall p ensures LookedUp(nodes, ["a"], p) <==> p == ["a"] {
      if |p| == 1 { assert p == [p[0]]; }
    }
  }

  /** Two parents that `+/#` leads to. */
  const BRANCHES: seq<Op> := [Put("a/x", 1), Put("b/y", 2)]

  lemma TwoLevelsOf(t: string)
    requires |t| == 3 && t[0] != SLASH && t[1] == SLASH && t[2] != SLASH
    ensures Split(t) == [t[..1], t[2..]]
  {
    assert NextSlash(t, 1) == 1 && NextSlash(t, 0) == 1 && NextSlash(t, 3) == 3 && NextSlash(t, 2) == 3;
    assert SplitFrom(t, 2) == [t[2..]] && t[0..1] == t[..1];
    assert SplitFrom(t, 0) == [t[0..1]] + SplitFrom(t, 2);
  }

  lemma BranchLevels()
    ensures Split("a/x") == ["a", "x"] && Split("b/y") == ["b", "y"] && Split("+/#") == [PLUS, WELL]
  {
    TwoLevelsOf("a/x");
    TwoLevelsOf("b/y");
    TwoLevelsOf("+/#");
    assert "a/x"[..1] == "a" && "a/x"[2..] == "x" && "b/y"[..1] == "b" && "b/y"[2..] == "y";
    assert "+/#"[..1] == PLUS && "+/#"[2..] == WELL;
  }

  lemma BranchesRun(trace: seq<Place>)
    requires Traced(BRANCHES, 1, trace)
    ensures RunAt(BRANCHES, trace).msgs == map[["a", "x"] := 1, ["b", "y"] := 2]
    ensures RunAt(BRANCHES, trace).keys == {[], ["a"], ["a", "x"], ["b"], ["b", "y"]}
  {
    hide Split, TreeRuns.Way, RunAt, Traced, PlainRun;
    BranchLevels();
    WayDown("a", "x");
    WayDown("b", "y");
    FirstRun();
    var ops := BRANCHES;
    assert ops[..1] + [ops[1]] == ops && [] + [ops[0]] == ops[..1];
    TracedSnoc(ops[..1], ops[1], trace);
    TracedSnoc([], ops[0], trace[..1]);
  }

  /**
   * As written a lookup of `+/#` returns what lies below the last of the two parents, and so misses the message
   * below `a`; a loop that went on would return both.
   */
  method LostBranch() returns (db: DbTree, some: seq<Msg>, both: seq<Msg>)
    ensures fresh(db) && db.Valid() && db.flat.retained == map[["a", "x"] := 1, ["b", "y"] := 2]
    ensures exists trace :: Traced(BRANCHES, 1, trace) && Recorded(db, RunAt(BRANCHES, trace))
    ensures AllUnder(db.flat.retained, AllParents(db.nodes, Split("+/#")), both)
    ensures exists roots ::
      Chosen(AllParents(db.nodes, Split("+/#")), roots, false) && AllUnder(db.flat.retained, roots, some)
    ensures 1 in both && 2 in both && 1 !in some && 2 in some
  {
    hide DbTree.Valid, Split, LookedUp, AllParents, MessagesAt, FirstWell, Traced, RunAt, HarmlessRun, Plain, PlainRun;
    hide Swept, AllUnder;
    BranchLevels();
    ghost var trace, hits;
    db, trace := Drive(BRANCHES, 1);
    BranchesRun(trace);
    Branching(db);
    some, hits := FindRetain(db, "+/#", false);
    ghost var roots :| Chosen(AllParents(db.nodes, [PLUS, WELL]), roots, false) &&
      AllUnder(db.flat.retained, roots, some);
    OneBranch(roots, some);
    both, hits := FindRetain(db, "+/#", true);
  }

  lemma Branching(db: DbTree)
    requires db.Valid() && db.nodes.Keys == {[], ["a"], ["a", "x"], ["b"], ["b", "y"]}
    ensures FirstWell([PLUS, WELL]) == 1 && AllParents(db.nodes, [PLUS, WELL]) == {["a"], ["b"]}
    ensures forall p :: p in {["a", "x"], ["b", "y"]} ==> LookedUp(db.nodes, [PLUS, WELL], p)
  {
    hide DbTree.Valid, Linked;
    db.ShapeOf();
    var f := [PLUS, WELL];
    assert f[1..] == [WELL] && FirstWell(f[1..]) == 0;
    ParentIs(db, "a", "x");
    ParentIs(db, "b", "y");
  }

  lemma ParentIs(db: DbTree, t: string, u: string)
    requires db.Shape() && [t, u] in db.nodes && FirstWell([PLUS, WELL]) == 1
    ensures [t] in AllParents(db.nodes, [PLUS, WELL]) && LookedUp(db.nodes, [PLUS, WELL], [t, u])
  {
    hide Linked;
    var p := [t, u];
    assert p[..1] == [t];
    db.PrefixClosed(p, 1);
    assert Kid([t], u) == p;
    assert Inner(db.nodes, [t]);
  }

  /** The parent chosen is the one for `b`, which stands last. */
  lemma OneBranch(roots: set<Path>, some: seq<Msg>)
    requires Chosen({["a"], ["b"]}, roots, false) && AllUnder(map[["a", "x"] := 1, ["b", "y"] := 2], roots, some)
    ensures 1 !in some && 2 in some
  {
    hide StrCmp;
    assert ["a"][0] != ["b"][0] && ["a", "x"][0] == ["a"][0] && ["b", "y"][0] == ["b"][0];
    LastParent();
    assert ["a"] !in roots && ["b"] in roots;
    assert Under(roots, ["a", "x"]) <==> ["a"] in roots;
    assert Under(roots, ["b", "y"]) <==> ["b"] in roots;
    assert map[["a", "x"] := 1, ["b", "y"] := 2][["b", "y"]] == 2;
  }

  lemma LastParent()
    ensures Left(["a"], ["b"])
  {
    assert Parent(["a"]) == [] == Parent(["b"]);
    assert "a"[0] != PLUS[0] && "a"[0] != WELL[0] && "b"[0] != PLUS[0] && "b"[0] != WELL[0];
  }
}
