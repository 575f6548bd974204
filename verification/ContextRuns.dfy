/** What whole runs do to the contexts: the options of every owner, and which contexts are still in use. */
module ContextRuns {
  import opened Topics
  import opened Entries
  import opened Nodes
  import opened Sessions
  import opened Reconnect
  import opened Runs
  import Options

  type Subs = seq<Options.Sub>

  // ----- The options of every owner -----

  /**
   * What one event makes of an owner's options, `own` before it. A disconnect hands over those of the pipe,
   * a connect those of the session; a session keeps its own if it has any.
   */
  ghost function ListAfter(w: World, e: Event, own: Subs, pipe: Subs, away: Subs, o: Owner): Subs
    requires Legal(w, e)
  {
    match e
    case Subscribe(pid, pkt) => if o == Pipe(pid) then Options.Merge(own, pkt) else own
    case Unsubscribe(pid, fs) => if o == Pipe(pid) then Options.RemoveAll(own, fs) else own
    case Connect(sid, pid, _) => if o == Pipe(pid) then away else if o == Away(sid) then [] else own
    case Disconnect(pid, keep) =>
      if o == Pipe(pid) then [] else if keep && o == Away(w.conn[pid]) && own == [] then pipe else own
    case _ => own
  }

  /** The pipe and the session that an event may move subscriptions from. */
  function PipeIn(e: Event): Owner { if e.Disconnect? then Pipe(e.pid) else Pipe(0) }

  function AwayIn(e: Event): Owner { if e.Connect? then Away(e.sid) else Away(0) }

  lemma MovedSubs(s: State, s': State, a: Owner, b: Owner, x: Owner)
    requires Inv(s) && a != b && ListOf(s, b) == [] && Moved(s, s', a, b)
    ensures SubsOf(s', x) == if x == a then [] else if x == b then SubsOf(s, a) else SubsOf(s, x)
  {
    hide Inv, Untouched, CtxOf;
    MovedKeepsInv(s, s', a, b);
    if x != a && x != b { UntouchedSubs(s, s', x); }
  }

  lemma ClearedSubs(s: State, pid: Id, x: Owner)
    requires Inv(s)
    ensures SubsOf(Cleared(s, pid), x) == if x == Pipe(pid) then [] else SubsOf(s, x)
  {
    hide Inv, Untouched, CtxOf, Cleared, Swapped, At;
    ClearedKeepsInv(s, pid);
    if x != Pipe(pid) { UntouchedSubs(s, Cleared(s, pid), x); }
  }

  lemma CachedSubs(s: State, pid: Id, sid: Id, x: Owner)
    requires Inv(s) && CacheFits(s, pid, sid)
    ensures SubsOf(Cached(s, pid, sid), x) ==
              if x == Pipe(pid) then []
              else if x == Away(sid) && SubsOf(s, x) == [] then SubsOf(s, Pipe(pid))
              else SubsOf(s, x)
  {
    hide Inv, Agrees, Untouched, CtxOf, Cached, Moved, SameSet;
    if pid !in s.topics {
      CachedNothing(s, pid, sid);
    } else if Get(s.cached, sid) == [] {
      CachedMoves(s, pid, sid);
      MovedSubs(s, Cached(s, pid, sid), Pipe(pid), Away(sid), x);
    } else {
      SameNonempty(s.topics[pid], Get(s.cached, sid));
      CachedOntoSame(s, pid, sid);
      CachedLists(s, pid, sid, x);
      if x == Away(sid) {
        SomeSubs(s, x);
      } else if x != Pipe(pid) {
        CachedOthers(s, pid, sid, x);
        UntouchedSubs(s, Cached(s, pid, sid), x);
      }
    }
  }

  /** An owner with filters has options for them. */
  lemma SomeSubs(s: State, o: Owner)
    requires Inv(s)
    ensures SubsOf(s, o) == [] <==> ListOf(s, o) == []
  {
    hide SubsOf, Agrees;
    assert Agrees(s, o);
    SubsListed(s, o);
    if ListOf(s, o) != [] { assert ListOf(s, o)[0] in ListOf(s, o); }
    if SubsOf(s, o) != [] { assert Options.Lists(SubsOf(s, o), SubsOf(s, o)[0].filter); }
  }

  lemma RestoredSubs(s: State, sid: Id, pid: Id, unset: Ctxt, x: Owner)
    requires Inv(s) && Get(s.topics, pid) == [] && !Stray(s, sid, unset)
    ensures SubsOf(Restored(s, sid, pid, unset), x) ==
              if x == Pipe(pid) then SubsOf(s, Away(sid)) else if x == Away(sid) then [] else SubsOf(s, x)
  {
    hide Inv, Restored, Moved, Untouched;
    if Defined(s, sid) {
      RestoredMoves(s, sid, pid, unset);
      MovedSubs(s, Restored(s, sid, pid, unset), Away(sid), Pipe(pid), x);
    } else {
      RestoredUnset(s, sid, pid, unset);
      assert forall p :: At(Restored(s, sid, pid, unset), x, p) == At(s, x, p);
    }
  }

  /** Every event that fits does to every owner's options what it should. */
  lemma SubsStep(w: World, e: Event, o: Owner)
    requires WorldInv(w) && Legal(w, e) && Fit(w, e)
    ensures SubsOf(Step(w, e).s, o) ==
      ListAfter(w, e, SubsOf(w.s, o), SubsOf(w.s, PipeIn(e)), SubsOf(w.s, AwayIn(e)), o)
  {
    hide Inv, Untouched, SubsOf, CtxOf, Cached, Cleared, Restored, Stray, CacheFits, Posted, Swapped, OwnCtx;
    hide Sessions.Subscribe, Sessions.Unsubscribe, Options.Merge, Options.RemoveAll, SameView;
    match e
    case Subscribe(pid, pkt) =>
      SubscribeKeepsInv(w.s, pid, pkt);
      if o != Pipe(pid) { UntouchedSubs(w.s, Sessions.Subscribe(w.s, pid, pkt), o); }
    case Unsubscribe(pid, fs) =>
      UnsubscribeKeepsInv(w.s, pid, fs);
    case Connect(sid, pid, unset) =>
      RestoredSubs(w.s, sid, pid, unset, o);
    case Disconnect(pid, keep) =>
      if keep {
        CachedSubs(w.s, pid, w.conn[pid], o);
        CachedKeepsInvIff(w.s, pid, w.conn[pid]);
        ClearedSubs(Cached(w.s, pid, w.conn[pid]), pid, o);
      } else {
        ClearedSubs(w.s, pid, o);
      }
    case _ =>
  }

  function Drops(fs: seq<string>): seq<Options.Change> {
    if fs == [] then [] else [Options.Drop(fs[0])] + Drops(fs[1..])
  }

  lemma DropRun(h: seq<Options.Change>, f: string)
    ensures Options.Run(h + [Options.Drop(f)]) == Options.Remove(Options.Run(h), f)
  {
    hide Options.Remove, Options.Merge;
    assert (h + [Options.Drop(f)])[..|h|] == h;
  }

  lemma {:induction false} DropsRun(h: seq<Options.Change>, fs: seq<string>)
    ensures Options.Run(h + Drops(fs)) == Options.RemoveAll(Options.Run(h), fs)
    decreases fs
  {
    hide Options.Remove, Options.Run;
    if fs == [] {
      assert h + [] == h;
    } else {
      var d := Options.Drop(fs[0]);
      assert h + Drops(fs) == (h + [d]) + Drops(fs[1..]);
      DropRun(h, fs[0]);
      DropsRun(h + [d], fs[1..]);
    }
  }

  /** The packets that concern an owner's options: they follow the subscriptions from pipe to session and back. */
  ghost function History(es: seq<Event>, o: Owner): seq<Options.Change>
    requires LegalRun(es)
  {
    if es == [] then []
    else
      var before, e := es[..|es| - 1], es[|es| - 1];
      match e
      case Subscribe(pid, pkt) => History(before, o) + if o == Pipe(pid) then [Options.Packet(pkt)] else []
      case Unsubscribe(pid, fs) => History(before, o) + if o == Pipe(pid) then Drops(fs) else []
      case Connect(sid, pid, _) =>
        if o == Pipe(pid) then History(before, Away(sid)) else if o == Away(sid) then [] else History(before, o)
      case Disconnect(pid, keep) =>
        if o == Pipe(pid) then []
        else if keep && o == Away(Run(before).conn[pid]) && Options.Run(History(before, o)) == []
        then History(before, Pipe(pid))
        else History(before, o)
      case _ => History(before, o)
  }

  lemma HistoryStep(es: seq<Event>, o: Owner)
    requires LegalRun(es) && es != []
    ensures
      var before, e := es[..|es| - 1], es[|es| - 1];
      Options.Run(History(es, o)) ==
        ListAfter(Run(before), e, Options.Run(History(before, o)), Options.Run(History(before, PipeIn(e))),
                  Options.Run(History(before, AwayIn(e))), o)
  {
    hide Options.Run, Options.Merge, Options.RemoveAll, Drops, Run;
    var before, e := es[..|es| - 1], es[|es| - 1];
    NoneRun();
    match e
    case Subscribe(_, pkt) => PacketRun(History(before, o), pkt);
    case Unsubscribe(_, fs) => DropsRun(History(before, o), fs); NothingMore(History(before, o));
    case _ =>
  }

  lemma NothingMore(h: seq<Options.Change>)
    ensures h + [] == h
  {
  }

  /**
   * After every run that fits the option list of every owner is what the packets made it, in their order;
   * so it holds for each filter what was last said of it since it was last removed.
   */
  lemma {:induction false} OptionsExact(es: seq<Event>, o: Owner)
    requires LegalRun(es) && FitRun(es)
    ensures SubsOf(Run(es).s, o) == Options.Run(History(es, o))
    decreases |es|
  {
    hide WorldInv, Step, Fit, SubsOf, Options.Run, FitRun, Run, History, Options.Merge, Options.RemoveAll;
    if es == [] {
      NoHistory(o);
    } else {
      RunLast(es);
      var before, e := es[..|es| - 1], es[|es| - 1];
      AgreementIff(before);
      SubsStep(Run(before), e, o);
      HistoryStep(es, o);
      OptionsExact(before, o);
      OptionsExact(before, PipeIn(e));
      OptionsExact(before, AwayIn(e));
    }
  }

  lemma NoHistory(o: Owner)
    ensures SubsOf(Run([]).s, o) == [] && Options.Run(History([], o)) == []
  {
  }

  lemma RunLast(es: seq<Event>)
    requires LegalRun(es) && FitRun(es) && es != []
    ensures var before, e := es[..|es| - 1], es[|es| - 1];
            && LegalRun(before) && FitRun(before) && Legal(Run(before), e) && Fit(Run(before), e)
            && Run(es) == Step(Run(before), e)
  {
    hide Step, Fit, Legal;
  }

  lemma PacketRun(h: seq<Options.Change>, pkt: Subs)
    ensures Options.Run(h + [Options.Packet(pkt)]) == Options.Merge(Options.Run(h), pkt) && h + [] == h
  {
    hide Options.Merge;
    assert (h + [Options.Packet(pkt)])[..|h|] == h;
  }

  lemma NoneRun()
    ensures Options.Run([]) == []
  {
  }

  /** What an owner is served with: for each filter listed, the options last given for it. */
  lemma LatestOptions(es: seq<Event>, o: Owner, f: string)
    requires LegalRun(es) && FitRun(es)
    ensures
      var s := Run(es).s;
      && (f in ListOf(s, o) <==> Options.Latest(History(es, o), f).Some?)
      && (f in ListOf(s, o) ==>
            Options.Lists(SubsOf(s, o), f) &&
            Options.Latest(History(es, o), f).value == Options.OptsOf(SubsOf(s, o), f))
  {
    hide LegalRun, FitRun, Run, History, SubsOf, Agrees, Options.Run, Options.Latest, Options.Lists;
    AgreementIff(es);
    OptionsExact(es, o);
    Options.RunExact(History(es, o), f);
    SubsListed(Run(es).s, o);
  }

  // ----- Which contexts are in use -----

  ghost predicate InUse(s: State, c: Ctxt) { exists o :: c in OwnCtx(s, o) }

  /** Every context allocated is that of an owner with filters. */
  ghost predicate NoLeak(s: State) { forall c :: c in s.ctxs ==> InUse(s, c) }

  lemma SwappedNoLeak(s: State, s': State, o: Owner)
    requires NoLeak(s) && Swapped(s, s', o) && forall x :: x != o ==> OwnCtx(s', x) == OwnCtx(s, x)
    ensures NoLeak(s')
  {
    hide OwnCtx;
    forall c | c in s'.ctxs ensures InUse(s', c) {
      if c !in OwnCtx(s', o) {
        assert c in s.ctxs;
        var x :| c in OwnCtx(s, x);
        assert c in OwnCtx(s', x);
      }
    }
  }

  lemma UntouchedOwn(s: State, s': State, x: Owner)
    requires Untouched(s, s', x)
    ensures OwnCtx(s', x) == OwnCtx(s, x)
  {
    hide CtxOf;
    UntouchedSubs(s, s', x);
  }

  lemma ViewOwn(s: State, s': State, x: Owner)
    requires SameView(s, s', x)
    ensures OwnCtx(s', x) == OwnCtx(s, x)
  {
    hide Split;
  }

  lemma MovedNoLeak(s: State, s': State, a: Owner, b: Owner)
    requires Inv(s) && NoLeak(s) && a != b && ListOf(s, b) == [] && Moved(s, s', a, b) && s'.ctxs.Keys == s.ctxs.Keys
    ensures NoLeak(s')
  {
    hide Inv, CtxOf, Untouched;
    MovedKeepsInv(s, s', a, b);
    forall c | c in s'.ctxs ensures InUse(s', c) {
      var x :| c in OwnCtx(s, x);
      if x == a {
        assert c in OwnCtx(s', b);
      } else {
        UntouchedOwn(s, s', x);
        assert c in OwnCtx(s', x);
      }
    }
  }

  /** A context that is no longer anyone's stays allocated. */
  lemma OntoSameLeaks(s: State, pid: Id, sid: Id)
    requires Inv(s) && pid in s.topics && s.topics[pid] != [] && Get(s.cached, sid) != [] && CacheFits(s, pid, sid)
    ensures !NoLeak(Cached(s, pid, sid))
  {
    hide Agrees, Untouched, CtxOf, Cached, SameSet;
    var a, b, s' := Pipe(pid), Away(sid), Cached(s, pid, sid);
    var c := CtxOf(s, a);
    CachedOntoSame(s, pid, sid);
    CachedLists(s, pid, sid, a);
    CachedLists(s, pid, sid, b);
    OwnAllocated(s, a);
    forall x ensures c !in OwnCtx(s', x) {
      if x != a && x != b {
        CachedOthers(s, pid, sid, x);
        UntouchedOwn(s, s', x);
      }
    }
    assert c in s'.ctxs && !InUse(s', c);
  }

  /** The event allocates no context in vain and leaves none behind. */
  ghost predicate Thrifty(w: World, e: Event)
    requires Legal(w, e)
  {
    match e
    case Subscribe(pid, pkt) => pkt != [] || Get(w.s.topics, pid) != []
    case Disconnect(pid, keep) => keep ==> Get(w.s.topics, pid) == [] || Get(w.s.cached, w.conn[pid]) == []
    case _ => true
  }

  lemma SubscribeLeakIff(s: State, pid: Id, pkt: Subs)
    requires Inv(s) && NoLeak(s)
    ensures NoLeak(Sessions.Subscribe(s, pid, pkt)) <==> pkt != [] || Get(s.topics, pid) != []
  {
    hide Agrees, Untouched, CtxOf, Sessions.Subscribe, Options.Merge;
    var o, s' := Pipe(pid), Sessions.Subscribe(s, pid, pkt);
    SubscribeKeepsInv(s, pid, pkt);
    forall x | x != o ensures OwnCtx(s', x) == OwnCtx(s, x) { UntouchedOwn(s, s', x); }
    if pkt != [] || Get(s.topics, pid) != [] {
      SwappedNoLeak(s, s', o);
    } else {
      NoneListed(s', o);
      forall x ensures s.next !in OwnCtx(s', x) { if x != o { BelowNext(s, x); } }
      assert s.next in s'.ctxs && !InUse(s', s.next);
    }
  }

  lemma NoneListed(s: State, o: Owner)
    requires forall f :: f !in ListOf(s, o)
    ensures OwnCtx(s, o) == {}
  {
    FirstOf(ListOf(s, o));
  }

  lemma FirstOf(q: seq<string>)
    ensures q != [] ==> q[0] in q
  {
  }

  lemma BelowNext(s: State, o: Owner)
    requires Inv(s)
    ensures s.next !in OwnCtx(s, o)
  {
    hide Indexed, CtxOf;
    assert Agrees(s, o);
  }

  lemma ClearedNoLeak(s: State, pid: Id)
    requires Inv(s)
    ensures NoLeak(s) ==> NoLeak(Cleared(s, pid))
    ensures Get(s.topics, pid) == [] && !NoLeak(s) ==> !NoLeak(Cleared(s, pid))
  {
    hide Inv, Untouched, CtxOf, Cleared, At;
    var o, s' := Pipe(pid), Cleared(s, pid);
    ClearedKeepsInv(s, pid);
    forall x | x != o ensures OwnCtx(s', x) == OwnCtx(s, x) { UntouchedOwn(s, s', x); }
    if NoLeak(s) { SwappedNoLeak(s, s', o); }
    if Get(s.topics, pid) == [] && !NoLeak(s) {
      var c :| c in s.ctxs && !InUse(s, c);
      forall x ensures c !in OwnCtx(s', x) { assert x != o ==> c !in OwnCtx(s, x); }
      assert c in s'.ctxs && !InUse(s', c);
    }
  }

  lemma CachedLeakIff(s: State, pid: Id, sid: Id)
    requires Inv(s) && NoLeak(s) && CacheFits(s, pid, sid)
    ensures NoLeak(Cached(s, pid, sid)) <==> Get(s.topics, pid) == [] || Get(s.cached, sid) == []
  {
    hide Inv, Untouched, CtxOf, Cached, Moved, SameSet, NoLeak;
    if pid !in s.topics {
      CachedNothing(s, pid, sid);
    } else if Get(s.cached, sid) == [] {
      CachedMoves(s, pid, sid);
      CachedLists(s, pid, sid, Pipe(pid));
      MovedNoLeak(s, Cached(s, pid, sid), Pipe(pid), Away(sid));
    } else {
      SameNonempty(s.topics[pid], Get(s.cached, sid));
      OntoSameLeaks(s, pid, sid);
    }
  }

  lemma RestoredNoLeak(s: State, sid: Id, pid: Id, unset: Ctxt)
    requires Inv(s) && NoLeak(s) && Get(s.topics, pid) == []
    ensures NoLeak(Restored(s, sid, pid, unset))
  {
    hide Inv, Moved, Untouched, ReviveAll, LastRevived;
    var s' := Restored(s, sid, pid, unset);
    assert s'.ctxs.Keys == s.ctxs.Keys;
    if Defined(s, sid) {
      hide Restored, NoLeak;
      RestoredMoves(s, sid, pid, unset);
      MovedNoLeak(s, s', Away(sid), Pipe(pid));
    } else {
      RestoredUnset(s, sid, pid, unset);
      forall c | c in s'.ctxs ensures InUse(s', c) {
        var x :| c in OwnCtx(s, x);
        ViewOwn(s, s', x);
        assert c in OwnCtx(s', x);
      }
    }
  }

  /** From a state without a leak an event that fits leads to one if and only if it is thrifty. */
  lemma LeakStep(w: World, e: Event)
    requires WorldInv(w) && Legal(w, e) && Fit(w, e) && NoLeak(w.s)
    ensures NoLeak(Step(w, e).s) <==> Thrifty(w, e)
  {
    hide Inv, NoLeak, CtxOf, Cached, Cleared, Restored, Stray, CacheFits, Posted, SubsOf, SameView;
    hide Sessions.Subscribe, Sessions.Unsubscribe, Options.RemoveAll;
    match e
    case Subscribe(pid, pkt) => SubscribeLeakIff(w.s, pid, pkt);
    case Unsubscribe(pid, fs) =>
      var s' := Sessions.Unsubscribe(w.s, pid, fs);
      UnsubscribeKeepsInv(w.s, pid, fs);
      forall x | x != Pipe(pid) ensures OwnCtx(s', x) == OwnCtx(w.s, x) { ViewOwn(w.s, s', x); }
      SwappedNoLeak(w.s, s', Pipe(pid));
    case Connect(sid, pid, unset) => RestoredNoLeak(w.s, sid, pid, unset);
    case Disconnect(pid, keep) =>
      if keep {
        CachedLeakIff(w.s, pid, w.conn[pid]);
        CachedKeepsInvIff(w.s, pid, w.conn[pid]);
        CachedTopics(w.s, pid, w.conn[pid]);
        ClearedNoLeak(Cached(w.s, pid, w.conn[pid]), pid);
      } else {
        ClearedNoLeak(w.s, pid);
      }
    case _ =>
  }

  ghost predicate ThriftyRun(es: seq<Event>)
    requires LegalRun(es)
  {
    es == [] || (ThriftyRun(es[..|es| - 1]) && Thrifty(Run(es[..|es| - 1]), es[|es| - 1]))
  }

  ghost predicate NeverLeaks(es: seq<Event>)
    requires LegalRun(es)
  {
    NoLeak(Run(es).s) && (es == [] || NeverLeaks(es[..|es| - 1]))
  }

  /** In a run that fits every context is in use in all states if and only if every event is thrifty. */
  lemma {:induction false} NoLeakIff(es: seq<Event>)
    requires LegalRun(es) && FitRun(es)
    ensures NeverLeaks(es) <==> ThriftyRun(es)
  {
    hide WorldInv, Step, Fit, Thrifty;
    if es != [] {
      hide NoLeak;
      var before := es[..|es| - 1];
      NoLeakIff(before);
      AgreementIff(before);
      LeakNow(before);
      if NeverLeaks(before) { LeakStep(Run(before), es[|es| - 1]); }
    }
  }

  lemma LeakNow(es: seq<Event>)
    requires LegalRun(es)
    ensures NeverLeaks(es) ==> NoLeak(Run(es).s)
  {
    hide Run, NoLeak;
  }

  /** Two connections of client 1, both on `a`; both leave their session behind. */
  ghost function SameTwice(o: Options.Opts): seq<Event> {
    [Connect(1, 1, NULL), Connect(1, 2, NULL), Subscribe(1, [Options.Sub("a", o)])]
    + [Subscribe(2, [Options.Sub("a", o)])] + [Disconnect(1, true)] + [Disconnect(2, true)]
  }

  /** The records agree to the end, but the context of the second connection is nobody's. */
  lemma ContextLeft(o: Options.Opts)
    ensures LegalRun(SameTwice(o)) && Inv(Run(SameTwice(o)).s) && !NoLeak(Run(SameTwice(o)).s)
  {
    hide Inv, WorldInv, Run, NoLeak, Cached, Cleared, Sessions.Subscribe, Untouched;
    var es := [Connect(1, 1, NULL), Connect(1, 2, NULL), Subscribe(1, [Options.Sub("a", o)])];
    var pkt := [Options.Sub("a", o)];
    TwoPipes(o);
    var w := Run(es);
    InvOf(w);
    OneFilter(w.s, 2, pkt[0]);
    SubscribeStep(w, 2, pkt);
    RunSnoc(es, Subscribe(2, pkt));
    var w1 := Run(es + [Subscribe(2, pkt)]);
    assert ListOf(w1.s, Pipe(1)) == ListOf(w.s, Pipe(1)) && ListOf(w1.s, Away(1)) == ListOf(w.s, Away(1));
    assert "a" in ListOf(w1.s, Pipe(1));
    DisconnectStep(w1, 1, true);
    RunSnoc(es + [Subscribe(2, pkt)], Disconnect(1, true));
    CachedLists(w1.s, 1, 1, Pipe(2));
    CachedLists(w1.s, 1, 1, Away(1));
    ClearedCached(w1.s, 1, 1);
    CachedKeys(w1.s, 1, 1);
    var w2 := Run(es + [Subscribe(2, pkt)] + [Disconnect(1, true)]);
    InvOf(w2);
    assert ListOf(w2.s, Pipe(2)) == ListOf(w1.s, Pipe(2)) && ListOf(w2.s, Away(1)) == ListOf(w1.s, Pipe(1));
    assert "a" in w2.s.topics[2] && "a" in Get(w2.s.cached, 1);
    DisconnectStep(w2, 2, true);
    RunSnoc(es + [Subscribe(2, pkt)] + [Disconnect(1, true)], Disconnect(2, true));
    OntoSameLeaks(w2.s, 2, 1);
    ClearedCached(w2.s, 2, 1);
    InvOf(Run(SameTwice(o)));
  }
}
