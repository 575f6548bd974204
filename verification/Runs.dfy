/** Whole runs of the broker: connections, subscriptions, publishes and drained queues in any order. */
module Runs {
  import opened Topics
  import opened Entries
  import opened Nodes
  import opened Options
  import opened Sessions
  import opened Reconnect
  import Publish

  /** What happens. A connect carries what the unset variable of `restore_session` happens to hold. */
  datatype Event =
    | Connect(sid: Id, pid: Id, unset: Ctxt)
    | Disconnect(pid: Id, keep: bool)
    | Subscribe(pid: Id, pkt: seq<Sub>)
    | Unsubscribe(pid: Id, filters: seq<string>)
    | Send(topic: string, msg: Msg)
    | Drain(sid: Id)

  type Mail = map<Id, seq<Msg>>

  /** Which pipe serves which client, what waits for sessions, and what they have been handed. */
  datatype World = World(s: State, conn: map<Id, Id>, waiting: Mail, handed: Mail)

  const START: World := World(INIT, map[], map[], map[])

  function MailOf(m: Mail, id: Id): seq<Msg> { if id in m then m[id] else [] }

  ghost function Posted(m: Mail, ids: set<Id>, msg: Msg): Mail {
    map id | id in m.Keys + ids :: MailOf(m, id) + (if id in ids then [msg] else [])
  }

  /** The pipe of a new connection is not in use, and only connected pipes speak. A client may connect twice. */
  predicate Legal(w: World, e: Event) {
    match e
    case Connect(_, pid, _) => pid !in w.conn
    case Disconnect(pid, _) => pid in w.conn
    case Subscribe(pid, _) => pid in w.conn
    case Unsubscribe(pid, _) => pid in w.conn
    case Send(_, _) => true
    case Drain(_) => true
  }

  ghost function Step(w: World, e: Event): World
    requires Legal(w, e)
  {
    match e
    case Connect(sid, pid, unset) => w.(s := Restored(w.s, sid, pid, unset), conn := w.conn[pid := sid])
    case Disconnect(pid, keep) =>
      var s1 := if keep then Cached(w.s, pid, w.conn[pid]) else w.s;
      w.(s := Cleared(s1, pid), conn := w.conn - {pid})
    case Subscribe(pid, pkt) => w.(s := Sessions.Subscribe(w.s, pid, pkt))
    case Unsubscribe(pid, fs) => w.(s := Sessions.Unsubscribe(w.s, pid, fs))
    case Send(topic, msg) => w.(waiting := Posted(w.waiting, Publish.Listeners(w.s.flat.sess, Split(topic)), msg))
    case Drain(sid) =>
      w.(waiting := w.waiting - {sid}, handed := w.handed[sid := MailOf(w.handed, sid) + MailOf(w.waiting, sid)])
  }

  ghost predicate LegalRun(es: seq<Event>)
    decreases |es|, 0
  {
    es == [] || (LegalRun(es[..|es| - 1]) && Legal(Run(es[..|es| - 1]), es[|es| - 1]))
  }

  ghost function Run(es: seq<Event>): World
    requires LegalRun(es)
    decreases |es|, 1
  {
    if es == [] then START else Step(Run(es[..|es| - 1]), es[|es| - 1])
  }

  /**
   * A persistent disconnect caches no entry, onto nothing, or onto the very same filters; and a connect
   * with an unset context does not hit that of a connected pipe.
   */
  ghost predicate Fit(w: World, e: Event)
    requires Legal(w, e)
  {
    && (e.Disconnect? && e.keep ==> CacheFits(w.s, e.pid, w.conn[e.pid]))
    && (e.Connect? ==> !Stray(w.s, e.sid, e.unset))
  }

  /** Every event of the run fits. */
  ghost predicate FitRun(es: seq<Event>)
    requires LegalRun(es)
  {
    es == [] || (FitRun(es[..|es| - 1]) && Fit(Run(es[..|es| - 1]), es[|es| - 1]))
  }

  /** The three records agree in every state the run goes through. */
  ghost predicate AgreeThroughout(es: seq<Event>)
    requires LegalRun(es)
  {
    Inv(Run(es).s) && (es == [] || AgreeThroughout(es[..|es| - 1]))
  }

  /** Agreement, plus: only connected pipes hold subscriptions. */
  ghost predicate WorldInv(w: World) {
    && Inv(w.s)
    && (forall pid: Id :: Get(w.s.topics, pid) != [] ==> pid in w.conn)
  }

  /** Only pipe `pid`'s list may have changed. */
  ghost predicate OnlyPipe(s: State, s': State, pid: Id) {
    && (forall id: Id :: id != pid ==> Get(s'.topics, id) == Get(s.topics, id))
    && (forall id: Id :: Get(s'.cached, id) == Get(s.cached, id))
  }

  lemma OnlyPipeFrom(s: State, s': State, pid: Id)
    requires forall x :: x != Pipe(pid) ==> SameView(s, s', x)
    ensures OnlyPipe(s, s', pid)
  {
    hide At;
    forall id: Id | id != pid ensures Get(s'.topics, id) == Get(s.topics, id) { assert SameView(s, s', Pipe(id)); }
    forall id: Id ensures Get(s'.cached, id) == Get(s.cached, id) { assert SameView(s, s', Away(id)); }
  }

  lemma PipeStep(w: World, s': State, pid: Id)
    requires WorldInv(w) && pid in w.conn && Inv(s') && OnlyPipe(w.s, s', pid)
    ensures WorldInv(w.(s := s'))
  {
    hide Inv, Get;
  }

  lemma SubscribeStep(w: World, pid: Id, pkt: seq<Sub>)
    requires WorldInv(w) && pid in w.conn
    ensures WorldInv(w.(s := Sessions.Subscribe(w.s, pid, pkt)))
  {
    hide Sessions.Subscribe, Inv, SameView, Untouched;
    SubscribeKeepsInv(w.s, pid, pkt);
    var s' := Sessions.Subscribe(w.s, pid, pkt);
    forall x | x != Pipe(pid) ensures SameView(w.s, s', x) { UntouchedView(w.s, s', x); }
    OnlyPipeFrom(w.s, s', pid);
    PipeStep(w, s', pid);
  }

  lemma UnsubscribeStep(w: World, pid: Id, fs: seq<string>)
    requires WorldInv(w) && pid in w.conn
    ensures WorldInv(w.(s := Sessions.Unsubscribe(w.s, pid, fs)))
  {
    hide Sessions.Unsubscribe, Inv, SameView;
    UnsubscribeKeepsInv(w.s, pid, fs);
    OnlyPipeFrom(w.s, Sessions.Unsubscribe(w.s, pid, fs), pid);
    PipeStep(w, Sessions.Unsubscribe(w.s, pid, fs), pid);
  }

  /** A connect keeps agreement if and only if it fits. */
  lemma ConnectStep(w: World, sid: Id, pid: Id, unset: Ctxt)
    requires WorldInv(w) && pid !in w.conn
    ensures
      var e := Connect(sid, pid, unset);
      (Fit(w, e) ==> WorldInv(Step(w, e))) && (!Fit(w, e) ==> !Inv(Step(w, e).s))
  {
    hide Restored, Inv, Stray;
    RestoredKeepsInvIff(w.s, sid, pid, unset);
    RestoredTopics(w.s, sid, pid, unset);
  }

  /** Restoring changes no topic list but the pipe's. */
  lemma RestoredTopics(s: State, sid: Id, pid: Id, unset: Ctxt)
    ensures forall id: Id :: id != pid ==> Get(Restored(s, sid, pid, unset).topics, id) == Get(s.topics, id)
  {
    hide ReviveAll, LastRevived;
  }

  /** Caching changes no topic list but the pipe's. */
  lemma CachedTopics(s: State, pid: Id, sid: Id)
    ensures forall id: Id :: id != pid ==> Get(Cached(s, pid, sid).topics, id) == Get(s.topics, id)
    ensures Get(Cached(s, pid, sid).topics, pid) == []
  {
    hide CacheAll;
  }

  /** There is nothing to clear once the pipe's entry has been cached. */
  lemma ClearedCached(s: State, pid: Id, sid: Id)
    requires pid in s.topics
    ensures Cleared(Cached(s, pid, sid), pid) == Cached(s, pid, sid)
  {
    hide CacheAll;
  }

  lemma ClearStep(w: World, pid: Id)
    requires WorldInv(w) && pid in w.conn
    ensures WorldInv(w.(s := Cleared(w.s, pid), conn := w.conn - {pid}))
  {
    hide Cleared, Inv, Untouched, SameView;
    var s' := Cleared(w.s, pid);
    ClearedKeepsInv(w.s, pid);
    forall x | x != Pipe(pid) ensures SameView(w.s, s', x) { UntouchedView(w.s, s', x); }
    OnlyPipeFrom(w.s, s', pid);
    assert Get(s'.topics, pid) == ListOf(s', Pipe(pid)) == [];
  }

  /** A disconnect keeps agreement if and only if it fits. */
  lemma DisconnectStep(w: World, pid: Id, keep: bool)
    requires WorldInv(w) && pid in w.conn
    ensures
      var e := Disconnect(pid, keep);
      (Fit(w, e) ==> WorldInv(Step(w, e))) && (!Fit(w, e) ==> !Inv(Step(w, e).s))
  {
    hide Cached, Cleared, Inv, CacheFits;
    var sid := w.conn[pid];
    if !keep {
      ClearStep(w, pid);
    } else {
      var s1 := Cached(w.s, pid, sid);
      CachedKeepsInvIff(w.s, pid, sid);
      if Inv(s1) {
        CachedTopics(w.s, pid, sid);
        ClearStep(w.(s := s1), pid);
      } else {
        NothingCached(w.s, pid, sid);
        ClearedCached(w.s, pid, sid);
      }
    }
  }

  lemma NothingCached(s: State, pid: Id, sid: Id)
    requires !CacheFits(s, pid, sid)
    ensures pid in s.topics
  {
  }

  lemma StepAgreesIff(w: World, e: Event)
    requires WorldInv(w) && Legal(w, e)
    ensures Fit(w, e) ==> WorldInv(Step(w, e))
    ensures !Fit(w, e) ==> !Inv(Step(w, e).s)
  {
    hide WorldInv, Posted, CacheFits, Stray;
    match e
    case Connect(sid, pid, unset) => ConnectStep(w, sid, pid, unset);
    case Disconnect(pid, keep) => DisconnectStep(w, pid, keep);
    case Subscribe(pid, pkt) => SubscribeStep(w, pid, pkt);
    case Unsubscribe(pid, fs) => UnsubscribeStep(w, pid, fs);
    case Send(topic, msg) => SameRecords(w, Step(w, e));
    case Drain(sid) => SameRecords(w, Step(w, e));
  }

  lemma SameRecords(w: World, w': World)
    requires WorldInv(w) && w'.s == w.s && w'.conn == w.conn
    ensures WorldInv(w')
  {
  }

  /**
   * For every run, second connections of a client and table entries that list nothing included: the
   * three records agree in all its states if and only if every event fits.
   */
  lemma {:induction false} AgreementIff(es: seq<Event>)
    requires LegalRun(es)
    ensures AgreeThroughout(es) <==> FitRun(es)
    ensures FitRun(es) ==> WorldInv(Run(es))
  {
    if es == [] {
      InitAgrees();
    } else {
      hide Inv, WorldInv, Step, Fit;
      var before := es[..|es| - 1];
      AgreementIff(before);
      if FitRun(before) {
        StepAgreesIff(Run(before), es[|es| - 1]);
        InvOf(Run(es));
      }
    }
  }

  lemma InvOf(w: World)
    ensures WorldInv(w) ==> Inv(w.s)
  {
  }

  /**
   * The messages a session is owed, told from the topic lists: those sent while a filter cached for it
   * matched, in order.
   */
  ghost function Owed(es: seq<Event>, sid: Id): seq<Msg>
    requires LegalRun(es)
  {
    if es == [] then []
    else
      var before, e := es[..|es| - 1], es[|es| - 1];
      Owed(before, sid) + (if e.Send? && Wants(Run(before).s, Away(sid), Split(e.topic)) then [e.msg] else [])
  }

  lemma NoMail(sid: Id)
    ensures MailOf(map[], sid) == []
  {
  }

  lemma MailStep(w: World, e: Event, sid: Id)
    requires Legal(w, e)
    ensures
      var w' := Step(w, e);
      MailOf(w'.handed, sid) + MailOf(w'.waiting, sid) ==
        MailOf(w.handed, sid) + MailOf(w.waiting, sid)
          + (if e.Send? && sid in Publish.Listeners(w.s.flat.sess, Split(e.topic)) then [e.msg] else [])
  {
    hide Restored, Cached, Cleared, Sessions.Subscribe, Sessions.Unsubscribe, Publish.Listeners, Posted, Split;
    match e
    case Send(topic, msg) =>
      PostedMail(w.waiting, Publish.Listeners(w.s.flat.sess, Split(topic)), msg, sid);
    case Drain(x) =>
    case Connect(_, _, _) =>
    case Disconnect(_, _) =>
    case Subscribe(_, _) =>
    case Unsubscribe(_, _) =>
  }

  lemma PostedMail(m: Mail, ids: set<Id>, msg: Msg, id: Id)
    ensures MailOf(Posted(m, ids, msg), id) == MailOf(m, id) + (if id in ids then [msg] else [])
  {
  }

  /** No message is lost, repeated or reordered: handed over plus waiting is exactly what is owed. */
  lemma {:induction false} OfflineConservation(es: seq<Event>, sid: Id)
    requires LegalRun(es) && (es != [] ==> FitRun(es[..|es| - 1]))
    ensures MailOf(Run(es).handed, sid) + MailOf(Run(es).waiting, sid) == Owed(es, sid)
  {
    hide Step, MailOf, Fit, WorldInv, Inv, Wants, Publish.Listeners;
    if es == [] {
      assert MailOf(map[], sid) == [] by { NoMail(sid); }
    } else {
      var before, e := es[..|es| - 1], es[|es| - 1];
      assert before != [] ==> FitRun(before[..|before| - 1]);
      OfflineConservation(before, sid);
      MailStep(Run(before), e, sid);
      if e.Send? {
        AgreementIff(before);
        InvOf(Run(before));
        ListenersAreListed(Run(before).s, Away(sid), Split(e.topic));
      }
    }
  }

  /** A publish reaches exactly the owners whose topic lists hold a matching filter. */
  lemma ListenersAreListed(s: State, o: Owner, t: Path)
    requires Inv(s)
    ensures o.id in Publish.Listeners(if o.Pipe? then s.flat.live else s.flat.sess, t) <==>
              Wants(s, o, t)
  {
    hide Matches, Split, Serves;
    assert Agrees(s, o);
    var m := if o.Pipe? then s.flat.live else s.flat.sess;
    if k :| k in m && Matches(k.0, t) && k.1 == o.id {
      assert At(s, o, k.0).Some?;
      var f :| f in ListOf(s, o) && Split(f) == k.0;
    }
    if f :| f in ListOf(s, o) && Matches(Split(f), t) {
      assert At(s, o, Split(f)).Some?;
      assert (Split(f), o.id) in m;
    }
  }

  lemma RunSnoc(es: seq<Event>, e: Event)
    requires LegalRun(es) && Legal(Run(es), e)
    ensures LegalRun(es + [e]) && Run(es + [e]) == Step(Run(es), e)
  {
    hide Step, Legal;
    assert (es + [e])[..|es|] == es;
  }

  /** Two connections of client 1; the first subscribes to `a`. */
  lemma TwoPipes(o: Opts)
    ensures
      var es := [Connect(1, 1, NULL), Connect(1, 2, NULL), Subscribe(1, [Sub("a", o)])];
      && LegalRun(es) && WorldInv(Run(es)) && Run(es).conn == map[1 := 1, 2 := 1]
      && (forall f :: f in Get(Run(es).s.topics, 1) <==> f == "a") && 1 in Run(es).s.topics
      && Get(Run(es).s.topics, 2) == [] && Get(Run(es).s.cached, 1) == []
  {
    hide Inv, Sessions.Subscribe;
    var es := [Connect(1, 1, NULL), Connect(1, 2, NULL), Subscribe(1, [Sub("a", o)])];
    var w2 := World(INIT, map[1 := 1, 2 := 1], map[], map[]);
    assert LegalRun([]) && Run([]) == START;
    assert es[..1] == [] + [es[0]] && es[..2] == es[..1] + [es[1]] && es == es[..2] + [es[2]];
    RunSnoc([], es[0]);
    RunSnoc(es[..1], es[1]);
    assert Run(es[..2]) == w2;
    InitAgrees();
    RunSnoc(es[..2], es[2]);
    OneFilter(INIT, 1, Sub("a", o));
    SubscribeStep(w2, 1, [Sub("a", o)]);
    var s3 := Sessions.Subscribe(INIT, 1, [Sub("a", o)]);
    assert ListOf(s3, Pipe(2)) == ListOf(INIT, Pipe(2)) && ListOf(s3, Away(1)) == ListOf(INIT, Away(1));
  }

  /**
   * After the first connection has left its session behind, a second one with an entry that does not list
   * `a` leaves records that do not agree.
   */
  lemma SecondLeaves(es: seq<Event>)
    requires LegalRun(es) && WorldInv(Run(es)) && Run(es).conn == map[1 := 1, 2 := 1]
    requires 1 in Run(es).s.topics && "a" in Get(Run(es).s.topics, 1) && Get(Run(es).s.cached, 1) == []
    requires 2 in Run(es).s.topics && "a" !in Get(Run(es).s.topics, 2)
    ensures
      var all := es + [Disconnect(1, true), Disconnect(2, true)];
      LegalRun(all) && !Inv(Run(all).s)
  {
    hide Inv, WorldInv, Cached, Cleared, Run;
    var w, d, e := Run(es), Disconnect(1, true), Disconnect(2, true);
    DisconnectStep(w, 1, true);
    RunSnoc(es, d);
    CachedLists(w.s, 1, 1, Pipe(2));
    CachedLists(w.s, 1, 1, Away(1));
    ClearedCached(w.s, 1, 1);
    CachedKeys(w.s, 1, 1);
    var w1 := Run(es + [d]);
    assert Get(w1.s.topics, 2) == Get(w.s.topics, 2) && Get(w1.s.cached, 1) == Get(w.s.topics, 1);
    assert "a" !in w1.s.topics[2] && "a" in Get(w1.s.cached, 1);
    DisconnectStep(w1, 2, true);
    RunSnoc(es + [d], e);
    assert es + [d] + [e] == es + [d, e];
  }

  lemma CachedKeys(s: State, pid: Id, sid: Id)
    ensures Cached(s, pid, sid).topics.Keys == s.topics.Keys - {pid}
  {
    hide CacheAll;
  }

  /** Two connections of client 1, on `a` and on `b`; both leave their session behind. */
  ghost function TwiceConnected(o: Opts): seq<Event> {
    [Connect(1, 1, NULL), Connect(1, 2, NULL), Subscribe(1, [Sub("a", o)])] + [Subscribe(2, [Sub("b", o)])]
    + [Disconnect(1, true), Disconnect(2, true)]
  }

  /** The run ends with records that do not agree: the session's list no longer names what the tree holds. */
  lemma SessionsCollide(o: Opts)
    ensures LegalRun(TwiceConnected(o)) && !Inv(Run(TwiceConnected(o)).s)
  {
    hide Inv, Run, Sessions.Subscribe;
    var es := [Connect(1, 1, NULL), Connect(1, 2, NULL), Subscribe(1, [Sub("a", o)])];
    TwoPipes(o);
    var w := Run(es);
    OneFilter(w.s, 2, Sub("b", o));
    SubscribeStep(w, 2, [Sub("b", o)]);
    RunSnoc(es, Subscribe(2, [Sub("b", o)]));
    var s' := Sessions.Subscribe(w.s, 2, [Sub("b", o)]);
    assert ListOf(s', Pipe(1)) == ListOf(w.s, Pipe(1)) && ListOf(s', Away(1)) == ListOf(w.s, Away(1));
    assert "a" in ListOf(s', Pipe(1));
    SecondLeaves(es + [Subscribe(2, [Sub("b", o)])]);
  }

  /** The second connection subscribes to nothing, but once unsubscribes from something. */
  ghost function OnceUnsubscribed(o: Opts): seq<Event> {
    [Connect(1, 1, NULL), Connect(1, 2, NULL), Subscribe(1, [Sub("a", o)])] + [Unsubscribe(2, ["x"])]
    + [Disconnect(1, true), Disconnect(2, true)]
  }

  /** That leaves an entry which lists nothing, and caching it wipes the session's list. */
  lemma SessionWiped(o: Opts)
    ensures LegalRun(OnceUnsubscribed(o)) && !Inv(Run(OnceUnsubscribed(o)).s)
  {
    hide Inv, Run, Sessions.Unsubscribe;
    var es := [Connect(1, 1, NULL), Connect(1, 2, NULL), Subscribe(1, [Sub("a", o)])];
    TwoPipes(o);
    var w, e := Run(es), Unsubscribe(2, ["x"]);
    UnsubscribeKeepsInv(w.s, 2, ["x"]);
    UnsubscribeStep(w, 2, ["x"]);
    RunSnoc(es, e);
    EntryLeft(w.s, 2, "x");
    var s' := Sessions.Unsubscribe(w.s, 2, ["x"]);
    assert SameView(w.s, s', Pipe(1)) && SameView(w.s, s', Away(1));
    assert Get(s'.topics, 1) == Get(w.s.topics, 1) && Get(s'.cached, 1) == [];
    assert "a" in ListOf(s', Pipe(1));
    SecondLeaves(es + [e]);
  }

  /** Unsubscribing without a subscription stores an entry that lists nothing. */
  lemma EntryLeft(s: State, pid: Id, f: string)
    requires Get(s.topics, pid) == []
    ensures var s' := Sessions.Unsubscribe(s, pid, [f]); pid in s'.topics && s'.topics[pid] == []
  {
    hide DropOne;
    assert [f][1..] == [];
    assert Sessions.Unsubscribe(s, pid, [f]) == UnsubscribeOne(s, pid, f);
  }

  /** One connection that unsubscribes from something and leaves: the entry is cached, and lists nothing. */
  lemma UnsetContext()
    ensures
      var es := [Connect(1, 1, NULL), Unsubscribe(1, ["x"]), Disconnect(1, true)];
      LegalRun(es) && WorldInv(Run(es)) && Run(es).conn == map[] && !Defined(Run(es).s, 1)
  {
    hide Inv, Cached, Cleared, Sessions.Unsubscribe;
    var es := [Connect(1, 1, NULL), Unsubscribe(1, ["x"]), Disconnect(1, true)];
    var w1 := World(INIT, map[1 := 1], map[], map[]);
    assert LegalRun([]) && Run([]) == START;
    assert es[..1] == [] + [es[0]] && es[..2] == es[..1] + [es[1]] && es == es[..2] + [es[2]];
    RunSnoc([], es[0]);
    assert Run(es[..1]) == w1;
    InitAgrees();
    UnsubscribeStep(w1, 1, ["x"]);
    UnsubscribeKeepsInv(INIT, 1, ["x"]);
    RunSnoc(es[..1], es[1]);
    EntryLeft(INIT, 1, "x");
    var s2 := Sessions.Unsubscribe(INIT, 1, ["x"]);
    assert SameView(INIT, s2, Away(1)) && Get(s2.cached, 1) == [];
    DisconnectStep(w1.(s := s2), 1, true);
    RunSnoc(es[..2], es[2]);
    ClearedCached(s2, 1, 1);
    NullCached(s2, 1, 1);
  }

  lemma NullCached(s: State, pid: Id, sid: Id)
    requires pid in s.topics && s.topics[pid] == []
    ensures !Defined(Cached(s, pid, sid), sid)
  {
    hide CacheAll;
  }

  /** In a state like that, with another client subscribed, the next connect may readdress that client's context. */
  lemma StrayWrite(w: World, pid: Id, x: Id)
    requires WorldInv(w) && !Defined(w.s, 1) && pid !in w.conn && Get(w.s.topics, x) != []
    ensures Legal(w, Connect(1, pid, CtxOf(w.s, Pipe(x)))) && !Inv(Step(w, Connect(1, pid, CtxOf(w.s, Pipe(x)))).s)
  {
    hide Restored, Split, Indexed;
    assert Agrees(w.s, Pipe(x));
    ConnectStep(w, 1, pid, CtxOf(w.s, Pipe(x)));
  }

  /** A pipe without filters that subscribes to one. */
  lemma OneFilter(s: State, pid: Id, sub: Sub)
    requires Inv(s)
    ensures var s' := Sessions.Subscribe(s, pid, [sub]);
            && Inv(s') && pid in s'.topics
            && (forall f :: f in Get(s'.topics, pid) <==> f in Get(s.topics, pid) || f == sub.filter)
            && (forall x :: x != Pipe(pid) ==> ListOf(s', x) == ListOf(s, x))
  {
    hide Inv, Sessions.Subscribe, Untouched;
    SubscribeKeepsInv(s, pid, [sub]);
    var s' := Sessions.Subscribe(s, pid, [sub]);
    assert Filters([sub]) == [sub.filter];
    assert ListOf(s', Pipe(pid)) == Get(s'.topics, pid) && ListOf(s, Pipe(pid)) == Get(s.topics, pid);
    assert sub.filter in Get(s'.topics, pid);
    forall x | x != Pipe(pid) ensures ListOf(s', x) == ListOf(s, x) { UntouchedView(s, s', x); }
  }
}
