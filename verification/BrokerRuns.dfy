/** The handlers themselves over whole runs of events, against the runs of the session machine. */
module BrokerRuns {
  import opened Topics
  import opened Entries
  import opened Nodes
  import opened Sessions
  import opened Reconnect
  import opened Runs
  import opened Broker
  import Publish
  import Dedup
  import Order

  /** What an event returns to its caller. */
  datatype Output = Done | Codes(codes: seq<int>) | Served(ctxts: seq<Ctxt>) | Drained(msgs: seq<Msg>)

  /** The ids lie in the windows in which the comparators order them, and publishes carry no wildcard. */
  ghost predicate InRange(pipeLo: nat, sidLo: nat, e: Event) {
    match e
    case Connect(sid, pid, _) => InWindow(pipeLo, pid) && InWindow(sidLo, sid)
    case Send(topic, _) => WildcardFree(Split(topic))
    case Drain(sid) => InWindow(sidLo, sid)
    case _ => true
  }

  /**
   * The contexts that a publish serves: those of the pipes whose topic lists hold a matching filter. They
   * are what the deduplication makes of the subscriptions in the order of the walk, and as written (`append`
   * false) none is served twice if and only if no pipe below the one met first lists two matching filters.
   */
  ghost predicate Reaches(s: State, t: Path, ctxts: seq<Ctxt>, append: bool) {
    && (forall c :: c in ctxts <==> exists pid: Id :: Wants(s, Pipe(pid), t) && c == CtxOf(s, Pipe(pid)))
    && (exists found :: Order.Gathered(s.flat.live, t, found) && ctxts == Dedup.Ctxts(Dedup.Survivors(found, append)))
    && ((forall i, j :: 0 <= i < j < |ctxts| ==> ctxts[i] != ctxts[j]) <==> append || !MetTwice(s, t))
  }

  /** The right answer to an event, in the state before it. */
  ghost predicate Right(w: World, e: Event, out: Output, append: bool) {
    match e
    case Send(topic, _) => out.Served? && Reaches(w.s, Split(topic), out.ctxts, append)
    case Drain(sid) => out.Drained? && out.msgs == MailOf(w.waiting, sid)
    case Unsubscribe(pid, fs) =>
      && out.Codes? && |out.codes| == |fs|
      && forall i :: 0 <= i < |fs| ==>
           out.codes[i] == if fs[i] in Get(w.s.topics, pid) && fs[i] !in fs[..i] then 0x00 else 0x11
    case _ => out.Done?
  }

  /** The handlers hold the state of the machine, and the tree's queue holds its mail. */
  ghost predicate Holds(h: Handlers, w: World) reads h, h.db, h.db.nodes.Values, h.hash {
    && h.Sound() && h.Abs() == w.s
    && (forall id: Id :: Publish.Backlog(h.db.queue, id) == MailOf(w.waiting, id))
    && (forall pid :: pid in w.conn ==> InWindow(h.db.pipeLo, pid) && InWindow(h.db.sidLo, w.conn[pid]))
  }

  /**
   * One event in an agreeing state, by its handler, whether it fits or not. `conn` tells which client a pipe
   * serves.
   */
  method Do(h: Handlers, conn: map<Id, Id>, e: Event, append: bool, ghost w: World)
    returns (conn': map<Id, Id>, out: Output)
    requires Holds(h, w) && WorldInv(w) && conn == w.conn && Legal(w, e) && InRange(h.db.pipeLo, h.db.sidLo, e)
    modifies h, h.hash, h.db, h.db.nodes.Values
    ensures Holds(h, Step(w, e)) && conn' == Step(w, e).conn && Right(w, e, out, append)
    ensures fresh(h.db.nodes.Values - old(h.db.nodes.Values))
  {
    hide Handlers.Sound, Inv, Sessions.Subscribe, Sessions.Unsubscribe, Restored, Cached, Cleared, Wants, CtxOf,
      CacheFits, Stray, Publish.Backlog, MailOf, Posted, Split, Publish.Listeners, Order.Gathered, MetTwice,
      Dedup.Survivors;
    conn', out := conn, Done;
    match e
    case Connect(sid, pid, unset) =>
      h.Connect(sid, pid, unset);
      conn' := conn[pid := sid];
    case Disconnect(pid, keep) =>
      h.Disconnect(pid, conn[pid], keep);
      conn' := conn - {pid};
    case Subscribe(pid, pkt) =>
      h.Subscribe(pid, conn[pid], pkt);
    case Unsubscribe(pid, fs) =>
      var codes := h.Unsubscribe(pid, conn[pid], fs);
      out := Codes(codes);
    case Send(topic, msg) =>
      var ctxts, found := h.Send(topic, msg, append);
      forall id: Id ensures Publish.Backlog(h.db.queue, id) == MailOf(Step(w, e).waiting, id) {
        ListenersAreListed(w.s, Away(id), Split(topic));
        PostedMail(w.waiting, Publish.Listeners(w.s.flat.sess, Split(topic)), msg, id);
      }
      out := Served(ctxts);
    case Drain(sid) =>
      var msgs := h.Drain(sid);
      forall id: Id ensures Publish.Backlog(h.db.queue, id) == MailOf(Step(w, e).waiting, id) {
        DrainedMail(w.waiting, sid, id);
      }
      out := Drained(msgs);
  }

  lemma DrainedMail(m: Mail, sid: Id, id: Id)
    ensures MailOf(m - {sid}, id) == if id == sid then [] else MailOf(m, id)
  {
  }

  /** Every part of a legal run is legal, and fits if the run does. */
  lemma {:induction false} Prefixes(es: seq<Event>, i: nat)
    requires LegalRun(es) && i <= |es|
    ensures LegalRun(es[..i]) && (FitRun(es) ==> FitRun(es[..i]))
    ensures i < |es| ==> Legal(Run(es[..i]), es[i])
    decreases |es|
  {
    if i == |es| {
      assert es[..i] == es;
    } else {
      var before := es[..|es| - 1];
      Prefixes(before, i);
      assert before[..i] == es[..i] && (i == |es| - 1 ==> es[..i] == before);
    }
  }

  /** What the drains of the run have handed to a session, one after the other. */
  function Handed(es: seq<Event>, outs: seq<Output>, sid: Id): seq<Msg>
    requires |outs| == |es|
  {
    if es == [] then []
    else
      var e, out := es[|es| - 1], outs[|es| - 1];
      Handed(es[..|es| - 1], outs[..|es| - 1], sid) + if e == Drain(sid) && out.Drained? then out.msgs else []
  }

  ghost predicate HandedAs(es: seq<Event>, outs: seq<Output>, m: Mail)
    requires |outs| == |es|
  {
    forall sid: Id :: Handed(es, outs, sid) == MailOf(m, sid)
  }

  lemma HandedSnoc(es: seq<Event>, outs: seq<Output>, e: Event, out: Output, sid: Id)
    requires |outs| == |es|
    ensures Handed(es + [e], outs + [out], sid) ==
            Handed(es, outs, sid) + if e == Drain(sid) && out.Drained? then out.msgs else []
  {
    assert (es + [e])[..|es|] == es && (outs + [out])[..|es|] == outs;
  }

  lemma HandedStep(w: World, e: Event, out: Output, append: bool, sid: Id)
    requires Legal(w, e) && Right(w, e, out, append)
    ensures MailOf(Step(w, e).handed, sid) ==
            MailOf(w.handed, sid) + if e == Drain(sid) && out.Drained? then out.msgs else []
  {
    hide Restored, Cached, Cleared, Sessions.Subscribe, Sessions.Unsubscribe, Posted, Split, Wants, CtxOf;
    assert MailOf(w.handed, sid) + [] == MailOf(w.handed, sid);
  }

  /** All answers of the run are right. */
  ghost predicate AllRight(es: seq<Event>, outs: seq<Output>, append: bool)
    requires LegalRun(es) && |outs| == |es|
  {
    es == [] ||
    (AllRight(es[..|es| - 1], outs[..|es| - 1], append) &&
      Right(Run(es[..|es| - 1]), es[|es| - 1], outs[|es| - 1], append))
  }

  /** One more event of the run, on the records kept about it. */
  lemma RunMore(es: seq<Event>, i: nat, outs: seq<Output>, out: Output, append: bool)
    requires LegalRun(es) && i < |es| && |outs| == i && LegalRun(es[..i]) && AllRight(es[..i], outs, append)
    requires Legal(Run(es[..i]), es[i]) && Right(Run(es[..i]), es[i], out, append)
    requires HandedAs(es[..i], outs, Run(es[..i]).handed)
    ensures LegalRun(es[..i + 1]) && Run(es[..i + 1]) == Step(Run(es[..i]), es[i])
    ensures AllRight(es[..i + 1], outs + [out], append)
    ensures HandedAs(es[..i + 1], outs + [out], Run(es[..i + 1]).handed)
  {
    hide Legal, Step, Right, MailOf, Handed;
    assert es[..i + 1] == es[..i] + [es[i]];
    RunSnoc(es[..i], es[i]);
    assert (es[..i] + [es[i]])[..i] == es[..i] && (outs + [out])[..i] == outs;
    var es', outs', w' := es[..i + 1], outs + [out], Run(es[..i + 1]);
    forall sid: Id ensures Handed(es', outs', sid) == MailOf(w'.handed, sid) {
      HandedSnoc(es[..i], outs, es[i], out, sid);
      HandedStep(Run(es[..i]), es[i], out, append, sid);
    }
  }

  /**
   * The handlers over every run, up to and including the first event that does not fit, from the empty
   * broker: they end in the machine's state, with the records in agreement if and only if every event fits;
   * they answer every event rightly; and for each session what its drains returned followed by what the
   * tree still queues is exactly what it is owed.
   */
  method Drive(ghost pipeLo: nat, ghost sidLo: nat, es: seq<Event>, append: bool)
    returns (h: Handlers, outs: seq<Output>)
    requires LegalRun(es) && (es != [] ==> FitRun(es[..|es| - 1]))
    requires forall i :: 0 <= i < |es| ==> InRange(pipeLo, sidLo, es[i])
    ensures fresh(h) && h.Sound() && h.Abs() == Run(es).s && (h.Valid() <==> FitRun(es))
    ensures |outs| == |es| && AllRight(es, outs, append)
    ensures forall sid: Id :: Publish.Backlog(h.db.queue, sid) == MailOf(Run(es).waiting, sid)
    ensures forall sid: Id :: Handed(es, outs, sid) + Publish.Backlog(h.db.queue, sid) == Owed(es, sid)
  {
    hide Legal, Fit, Step, Right, MailOf, Handed, Owed, InRange, WorldInv, AllRight, Handlers.Sound, Inv,
      Publish.Backlog, FitRun, Run, LegalRun, AgreeThroughout;
    h := new Handlers(pipeLo, sidLo);
    outs := [];
    var conn: map<Id, Id> := map[];
    Started(h, append);
    assert es[..0] == [];
    for i := 0 to |es|
      invariant fresh(h) && fresh(h.hash) && fresh(h.db) && fresh(h.db.nodes.Values) && |outs| == i
      invariant h.db.pipeLo == pipeLo && h.db.sidLo == sidLo
      invariant LegalRun(es[..i]) && Holds(h, Run(es[..i])) && conn == Run(es[..i]).conn
      invariant AllRight(es[..i], outs, append)
      invariant HandedAs(es[..i], outs, Run(es[..i]).handed)
    {
      Prefixes(es, i);
      FitSoFar(es, i);
      AgreementIff(es[..i]);
      var out;
      conn, out := Do(h, conn, es[i], append, Run(es[..i]));
      RunMore(es, i, outs, out, append);
      outs := outs + [out];
    }
    assert es[..|es|] == es;
    AgreesAtEnd(es);
    forall sid: Id ensures Handed(es, outs, sid) + Publish.Backlog(h.db.queue, sid) == Owed(es, sid) {
      OfflineConservation(es, sid);
    }
  }

  /** Every part of the run but the whole fits. */
  lemma FitSoFar(es: seq<Event>, i: nat)
    requires LegalRun(es) && (es != [] ==> FitRun(es[..|es| - 1])) && i < |es|
    ensures LegalRun(es[..i]) && FitRun(es[..i])
  {
    hide FitRun, LegalRun;
    var before := es[..|es| - 1];
    Prefixes(es, |es| - 1);
    Prefixes(before, i);
    assert before[..i] == es[..i];
  }

  /** If all events but the last fit, the last one decides whether the records agree at the end. */
  lemma AgreesAtEnd(es: seq<Event>)
    requires LegalRun(es) && (es != [] ==> FitRun(es[..|es| - 1]))
    ensures Inv(Run(es).s) <==> FitRun(es)
  {
    hide Inv;
    AgreementIff(es);
    if es != [] { AgreementIff(es[..|es| - 1]); }
  }

  lemma Started(h: Handlers, append: bool)
    requires h.Sound() && h.Abs() == INIT && h.db.queue == []
    ensures LegalRun([]) && Holds(h, Run([])) && Run([]).conn == map[] && AllRight([], [], append)
    ensures HandedAs([], [], Run([]).handed)
  {
    hide Handlers.Sound;
  }
}
