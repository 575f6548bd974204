/** The broker's handlers, each proved to take the step of the session machine on its own records. */
module Broker {
  import opened Topics
  import opened Entries
  import opened Nodes
  import opened Tree
  import opened Options
  import opened Sessions
  import opened Reconnect
  import opened Hash
  import Wrappers
  import Dedup
  import Order
  import Publish
  import Runs

  class Handlers {
    const db: DbTree
    const hash: TopicTables
    var ctxs: map<Ctxt, Ctx>
    var next: nat

    ghost function Abs(): State reads this, db, hash {
      State(db.flat, hash.topics, hash.cached, ctxs, next)
    }

    /** The tree is sound and minimal, and holds no retained message (those live in a tree of their own). */
    ghost predicate Sound() reads this, db, db.nodes.Values, hash {
      && db.Valid() && db.Minimal() && db.flat.retained == map[]
      && next > 0
    }

    ghost predicate Valid() reads this, db, db.nodes.Values, hash { Sound() && Inv(Abs()) }

    constructor (ghost pipeLo: nat, ghost sidLo: nat)
      ensures Valid() && Abs() == INIT && fresh(db) && fresh(db.nodes.Values) && fresh(hash) && db.queue == []
      ensures db.pipeLo == pipeLo && db.sidLo == sidLo
    {
      hide Inv, DbTree.Valid, DbTree.Minimal;
      db := new DbTree(pipeLo, sidLo);
      hash := new TopicTables();
      ctxs, next := map[], 1;
      new;
      InitAgrees();
    }

    /** `dbtree_delete_client` on the client tree. */
    method DeleteClient(topic: string, sid: Id, pid: Id) returns (ctxt: Ctxt)
      requires Sound() && InWindow(db.pipeLo, pid) && InWindow(db.sidLo, sid)
      modifies db`nodes, db`flat, db.nodes.Values
      ensures Sound() && fresh(db.nodes.Values - old(db.nodes.Values))
      ensures db.flat == Pulled(old(db.flat), Split(topic), 0, pid, DeleteFlag.DeleteClient)
      ensures ctxt == Looked(old(db.flat).live, Split(topic), pid)
    {
      hide DbTree.Valid, DbTree.Minimal, Split, Kept;
      OffTree(db, Split(topic), pid);
      ctxt := db.SearchAndDelete(topic, sid, pid, DeleteFlag.DeleteClient);
      NothingRetained(Pulled(old(db.flat), Split(topic), sid, pid, DeleteFlag.DeleteClient), db.nodes.Keys);
    }

    /** `dbtree_insert_client` on the client tree. */
    method InsertClient(topic: string, ctxt: Ctxt, pid: Id)
      requires Sound() && InWindow(db.pipeLo, pid)
      modifies db`nodes, db`flat, db.nodes.Values
      ensures Sound() && fresh(db.nodes.Values - old(db.nodes.Values))
      ensures db.flat == Inserted(old(db.flat), Split(topic), pid, ctxt)
    {
      hide DbTree.Valid, DbTree.Minimal, Split, Kept, DbTree.Lands, DbTree.Stops;
      ghost var at := db.InsertClient(topic, ctxt, pid, 1);
    }

    /** `dbtree_cache_session` for a filter the pipe holds. */
    method CacheSession(topic: string, sid: Id, pid: Id)
      requires Sound() && InWindow(db.pipeLo, pid) && InWindow(db.sidLo, sid) && (Split(topic), pid) in db.flat.live
      modifies db`nodes, db`flat, db.nodes.Values
      ensures Sound() && fresh(db.nodes.Values - old(db.nodes.Values))
      ensures db.flat == Pulled(old(db.flat), Split(topic), sid, pid, DeleteFlag.CacheSession)
    {
      hide DbTree.Valid, DbTree.Minimal, Split, Kept;
      OffTree(db, Split(topic), pid);
      var c := db.SearchAndDelete(topic, sid, pid, DeleteFlag.CacheSession);
      NothingRetained(Pulled(old(db.flat), Split(topic), sid, pid, DeleteFlag.CacheSession), db.nodes.Keys);
    }

    /** `dbtree_restore_session` for a filter the session holds. */
    method RestoreSession(topic: string, sid: Id, pid: Id) returns (ctxt: Ctxt)
      requires Sound() && InWindow(db.pipeLo, pid) && InWindow(db.sidLo, sid) && (Split(topic), sid) in db.flat.sess
      modifies db`nodes, db`flat, db.nodes.Values
      ensures Sound() && fresh(db.nodes.Values - old(db.nodes.Values))
      ensures db.flat == Revived(old(db.flat), Split(topic), sid, pid)
      ensures ctxt == Looked(old(db.flat).sess, Split(topic), sid)
    {
      hide DbTree.Valid, DbTree.Minimal, Split, Kept, DbTree.Lands, DbTree.Stops;
      ghost var at;
      ctxt, at := db.RestoreSession(topic, sid, pid, 1);
    }

    /** `sub_ctx_handle`, its tree, hash and context work. */
    method Subscribe(pid: Id, sid: Id, pkt: seq<Sub>)
      requires Valid() && InWindow(db.pipeLo, pid) && InWindow(db.sidLo, sid)
      modifies this, hash, db`nodes, db`flat, db.nodes.Values
      ensures Valid() && fresh(db.nodes.Values - old(db.nodes.Values))
      ensures Abs() == Sessions.Subscribe(old(Abs()), pid, pkt)
    {
      hide Inv, SubscribeAll, DbTree.Valid, DbTree.Minimal, Merged, Sound;
      var c := MergeIntoContext(pid, sid, pkt);
      AddTopics(pid, c, pkt);
      SubscribeKeepsInv(old(Abs()), pid, pkt);
    }

    /** The second half of `sub_ctx_handle`: records each filter of the packet that is new to the pipe. */
    method AddTopics(pid: Id, c: Ctxt, pkt: seq<Sub>)
      requires Sound() && InWindow(db.pipeLo, pid)
      modifies hash, db`nodes, db`flat, db.nodes.Values
      ensures Sound() && fresh(db.nodes.Values - old(db.nodes.Values))
      ensures Abs() == SubscribeAll(old(Abs()), pid, c, Filters(pkt))
    {
      hide Split, SubscribeAll, DbTree.Valid, DbTree.Minimal;
      for n := 0 to |pkt|
        invariant Sound() && fresh(db.nodes.Values - old(db.nodes.Values))
        invariant SubscribeAll(Abs(), pid, c, Filters(pkt)[n..]) == SubscribeAll(old(Abs()), pid, c, Filters(pkt))
      {
        var f := pkt[n].filter;
        SubscribeAllStep(Abs(), pid, c, Filters(pkt)[n..]);
        assert Filters(pkt)[n..][1..] == Filters(pkt)[n + 1..];
        var exists' := hash.CheckTopic(pid, f);
        if !exists' {
          InsertClient(f, c, pid);
          ghost var m := hash.topics;
          hash.AddTopic(pid, f);
          EntryIs(m, hash.topics, pid);
        }
      }
      SubscribeAllDone(Abs(), pid, c, Filters(pkt)[|pkt|..]);
    }

    /** Reads the pipe's context through its first filter, by taking the entry out and putting it back. */
    method FetchContext(pid: Id, sid: Id) returns (c: Ctxt)
      requires Sound() && InWindow(db.pipeLo, pid) && InWindow(db.sidLo, sid)
      modifies hash`topics, db`nodes, db`flat, db.nodes.Values
      ensures Sound() && fresh(db.nodes.Values - old(db.nodes.Values))
      ensures Abs() == Refetched(old(Abs()), pid) && c == StoredCtx(old(Abs()), pid)
    {
      hide Split, DbTree.Valid, DbTree.Minimal;
      var tq := hash.GetTopic(pid);
      c := NULL;
      if tq != [] {
        c := DeleteClient(tq[0], sid, pid);
        if c != NULL {
          InsertClient(tq[0], c, pid);
        }
      }
    }

    /** The first half of `sub_ctx_handle`: finds or makes the pipe's context and merges the packet. */
    method MergeIntoContext(pid: Id, sid: Id, pkt: seq<Sub>) returns (c: Ctxt)
      requires Valid() && InWindow(db.pipeLo, pid) && InWindow(db.sidLo, sid)
      modifies this, hash`topics, db`nodes, db`flat, db.nodes.Values
      ensures Sound() && fresh(db.nodes.Values - old(db.nodes.Values))
      ensures Abs() == Merged(old(Abs()), pid, pkt)
      ensures c == if StoredCtx(old(Abs()), pid) == NULL then old(next) else StoredCtx(old(Abs()), pid)
    {
      hide DbTree.Valid, DbTree.Minimal, Merge, Inv, StoredCtx, Refetched;
      StoredKnown(Abs(), pid);
      c := FetchContext(pid, sid);
      c := Extend(c, pid, pkt);
    }

    /** Merges the packet into the context given, or into a new one. */
    method Extend(was: Ctxt, pid: Id, pkt: seq<Sub>) returns (c: Ctxt)
      requires was == NULL || was in ctxs
      modifies this`ctxs, this`next
      ensures c == if was == NULL then old(next) else was
      ensures next == if was == NULL then old(next) + 1 else old(next)
      ensures ctxs == old(ctxs)[c := Ctx(pid, Merge(if was == NULL then [] else old(ctxs)[was].subs, pkt))]
    {
      hide Merge;
      c := was;
      if c == NULL {
        c := next;
        next := next + 1;
        ctxs := ctxs[c := Ctx(pid, [])];
      }
      var subs := MergeContext(ctxs[c].subs, pkt);
      ctxs := ctxs[c := Ctx(pid, subs)];
    }

    /** `del_sub_ctx`. */
    method DelSubCtx(c: Ctxt, f: string)
      modifies this`ctxs
      ensures Abs() == FilterGone(old(Abs()), c, f)
    {
      if c == NULL || c !in ctxs {
        return;
      }
      var subs := RemoveFilter(ctxs[c].subs, f);
      if subs == [] {
        ctxs := ctxs - {c};
      } else {
        ctxs := ctxs[c := ctxs[c].(subs := subs)];
      }
    }

    /** Tree and context part of giving up one filter. */
    method Drop(pid: Id, sid: Id, f: string) returns (c: Ctxt)
      requires Sound() && InWindow(db.pipeLo, pid) && InWindow(db.sidLo, sid)
      modifies this`ctxs, db`nodes, db`flat, db.nodes.Values
      ensures Sound() && fresh(db.nodes.Values - old(db.nodes.Values))
      ensures Abs() == DropOne(old(Abs()), pid, f) && c == Looked(old(db.flat).live, Split(f), pid)
    {
      hide Split, DbTree.Valid, DbTree.Minimal, Pulled;
      c := DeleteClient(f, sid, pid);
      DelSubCtx(c, f);
    }

    /** One round of `unsub_ctx_handle`. */
    method UnsubscribeFilter(pid: Id, sid: Id, f: string) returns (code: int)
      requires Valid() && InWindow(db.pipeLo, pid) && InWindow(db.sidLo, sid)
      modifies this`ctxs, hash`topics, db`nodes, db`flat, db.nodes.Values
      ensures Valid() && fresh(db.nodes.Values - old(db.nodes.Values))
      ensures Abs() == UnsubscribeOne(old(Abs()), pid, f)
      ensures code == if f in Get(old(hash.topics), pid) then 0x00 else 0x11
      ensures forall g :: g in Get(hash.topics, pid) <==> g in Get(old(hash.topics), pid) && g != f
    {
      hide Inv, Split, DbTree.Valid, DbTree.Minimal, DropOne, Without;
      ghost var s := Abs();
      UnsubscribeOneKeepsInv(s, pid, f);
      var c := Drop(pid, sid, f);
      hash.DelTopicOne(pid, f);
      UnlinkSpec(s, pid, f, hash.topics);
      assert Abs() == UnsubscribeOne(s, pid, f);
      assert Get(hash.topics, pid) == ListOf(Abs(), Pipe(pid)) && Get(s.topics, pid) == ListOf(s, Pipe(pid));
      code := if c != NULL then SUCCESS else NO_SUBSCRIPTION;
    }

    /** `unsub_ctx_handle`: one reason code per filter, telling whether the pipe held it. */
    method Unsubscribe(pid: Id, sid: Id, fs: seq<string>) returns (codes: seq<int>)
      requires Valid() && InWindow(db.pipeLo, pid) && InWindow(db.sidLo, sid)
      modifies this`ctxs, hash`topics, db`nodes, db`flat, db.nodes.Values
      ensures Valid() && fresh(db.nodes.Values - old(db.nodes.Values))
      ensures Abs() == Sessions.Unsubscribe(old(Abs()), pid, fs)
      ensures |codes| == |fs|
      ensures forall i :: 0 <= i < |fs| ==>
                codes[i] ==
                  if fs[i] in Get(old(hash.topics), pid) && fs[i] !in fs[..i] then 0x00 else 0x11
    {
      hide Valid, Split, Sessions.Unsubscribe, UnsubscribeOne;
      codes := [];
      for n := 0 to |fs|
        invariant Valid() && fresh(db.nodes.Values - old(db.nodes.Values))
        invariant Sessions.Unsubscribe(Abs(), pid, fs[n..]) == Sessions.Unsubscribe(old(Abs()), pid, fs)
        invariant forall g :: g in Get(hash.topics, pid) <==> g in Get(old(hash.topics), pid) && g !in fs[..n]
        invariant |codes| == n
        invariant forall i :: 0 <= i < n ==>
                    codes[i] ==
                      if fs[i] in Get(old(hash.topics), pid) && fs[i] !in fs[..i] then 0x00 else 0x11
      {
        UnsubscribeStepSpec(Abs(), pid, fs[n..]);
        TakeNext(fs, n);
        var code := UnsubscribeFilter(pid, sid, fs[n]);
        codes := codes + [code];
      }
      UnsubscribeDone(Abs(), pid, fs[|fs|..]);
    }

    /** `cache_session`: the first step of a persistent disconnect. */
    method Cache(pid: Id, sid: Id)
      requires Valid() && InWindow(db.pipeLo, pid) && InWindow(db.sidLo, sid)
      modifies hash, db`nodes, db`flat, db.nodes.Values
      ensures Sound() && fresh(db.nodes.Values - old(db.nodes.Values))
      ensures Abs() == Cached(old(Abs()), pid, sid)
    {
      hide Inv, Split, CacheAll, DbTree.Valid, DbTree.Minimal, Pulled;
      if pid !in hash.topics {
        return;
      }
      var q := hash.topics[pid];
      HeldByPipe(Abs(), pid);
      for i := 0 to |q|
        invariant Sound() && fresh(db.nodes.Values - old(db.nodes.Values))
        invariant unchanged(hash)
        invariant CacheAll(db.flat, q[i..], sid, pid) == CacheAll(old(db.flat), q, sid, pid)
        invariant forall j :: i <= j < |q| ==> (Split(q[j]), pid) in db.flat.live
      {
        CacheAllStep(db.flat, q[i..], sid, pid);
        assert q[i..][1..] == q[i + 1..];
        ghost var before := db.flat;
        CacheSession(q[i], sid, pid);
        forall j | i < j < |q| ensures (Split(q[j]), pid) in db.flat.live {
          StillLive(before, q, i, j, sid, pid);
        }
      }
      CacheAllDone(db.flat, q[|q|..], sid, pid);
      ghost var t, k := hash.topics, hash.cached;
      hash.CacheTopicAll(pid, sid);
      EntryIs(t, hash.topics, pid);
      EntryIs(k, hash.cached, sid);
    }

    /** The closing part of the DISCONNECT_EV branch: whatever the pipe still holds is deleted. */
    method Clear(pid: Id, sid: Id)
      requires Sound() && InWindow(db.pipeLo, pid) && InWindow(db.sidLo, sid)
      modifies this`ctxs, hash`topics, db`nodes, db`flat, db.nodes.Values
      ensures Sound() && fresh(db.nodes.Values - old(db.nodes.Values))
      ensures Abs() == Cleared(old(Abs()), pid)
    {
      hide Split, DropAll, DropOne, DbTree.Valid, DbTree.Minimal;
      if pid !in hash.topics {
        NothingToClear(Abs(), pid);
        return;
      }
      var q := hash.topics[pid];
      for i := 0 to |q|
        invariant Sound() && fresh(db.nodes.Values - old(db.nodes.Values))
        invariant hash.topics == old(hash.topics)
        invariant DropAll(Abs(), pid, q[i..]) == DropAll(old(Abs()), pid, q)
      {
        DropAllStep(Abs(), pid, q[i..]);
        assert q[i..][1..] == q[i + 1..];
        var c := Drop(pid, sid, q[i]);
      }
      DropAllDone(Abs(), pid, q[|q|..]);
      ghost var m := hash.topics;
      hash.DelTopicAll(pid);
      EntryIs(m, hash.topics, pid);
    }

    /** The DISCONNECT_EV branch of `server_cb`; the records agree afterwards if and only if it fits. */
    method Disconnect(pid: Id, sid: Id, keep: bool)
      requires Valid() && InWindow(db.pipeLo, pid) && InWindow(db.sidLo, sid)
      modifies this`ctxs, hash, db`nodes, db`flat, db.nodes.Values
      ensures Sound() && fresh(db.nodes.Values - old(db.nodes.Values))
      ensures Abs() == Cleared(if keep then Cached(old(Abs()), pid, sid) else old(Abs()), pid)
      ensures Valid() <==> !keep || old(CacheFits(Abs(), pid, sid))
    {
      hide Inv, DbTree.Valid, DbTree.Minimal, Cached, Cleared, CacheFits;
      ghost var s := Abs();
      if keep {
        CachedKeepsInvIff(s, pid, sid);
        Cache(pid, sid);
        if !CacheFits(s, pid, sid) {
          Runs.NothingCached(s, pid, sid);
          Runs.ClearedCached(s, pid, sid);
        }
      }
      if Inv(Abs()) { ClearedKeepsInv(Abs(), pid); }
      Clear(pid, sid);
    }

    /** The loop of `restore_session`: moves each cached filter back, and reports the context found last. */
    method ReviveTopics(q: seq<string>, sid: Id, pid: Id) returns (c: Ctxt)
      requires Sound() && InWindow(db.pipeLo, pid) && InWindow(db.sidLo, sid) && q != []
      requires forall j :: 0 <= j < |q| ==> (Split(q[j]), sid) in db.flat.sess
      requires NoDup(q)
      modifies db`nodes, db`flat, db.nodes.Values
      ensures Sound() && fresh(db.nodes.Values - old(db.nodes.Values))
      ensures db.flat == ReviveAll(old(db.flat), q, sid, pid)
      ensures c == LastRevived(old(db.flat), q, sid, pid)
    {
      hide Split, NoDup, ReviveAll, LastRevived, DbTree.Valid, DbTree.Minimal, Revived, Sound;
      c := NULL;
      for i := 0 to |q|
        invariant Sound() && fresh(db.nodes.Values - old(db.nodes.Values))
        invariant ReviveAll(db.flat, q[i..], sid, pid) == ReviveAll(old(db.flat), q, sid, pid)
        invariant i < |q| ==> LastRevived(db.flat, q[i..], sid, pid) == LastRevived(old(db.flat), q, sid, pid)
        invariant i == |q| ==> c == LastRevived(old(db.flat), q, sid, pid)
        invariant forall j :: i <= j < |q| ==> (Split(q[j]), sid) in db.flat.sess
      {
        ReviveAllStep(db.flat, q[i..], sid, pid);
        assert q[i..][1..] == q[i + 1..];
        ghost var before := db.flat;
        c := RestoreSession(q[i], sid, pid);
        forall j | i < j < |q| ensures (Split(q[j]), sid) in db.flat.sess {
          StillAway(before, q, i, j, sid, pid);
        }
      }
      ReviveAllDone(db.flat, q[|q|..], sid, pid);
    }

    /** `restore_session` on the records; `unset` is what its context variable holds before it is set. */
    method Reattach(sid: Id, pid: Id, unset: Ctxt)
      requires Sound() && InWindow(db.pipeLo, pid) && InWindow(db.sidLo, sid) && NoDup(Get(hash.cached, sid))
      requires forall j :: 0 <= j < |Get(hash.cached, sid)| ==> (Split(Get(hash.cached, sid)[j]), sid) in db.flat.sess
      modifies this`ctxs, hash, db`nodes, db`flat, db.nodes.Values
      ensures Sound() && fresh(db.nodes.Values - old(db.nodes.Values))
      ensures Abs() == Restored(old(Abs()), sid, pid, unset)
    {
      hide Split, NoDup, LastRevived, DbTree.Valid, DbTree.Minimal, Revived;
      if sid !in hash.cached {
        return;
      }
      var q := hash.cached[sid];
      var c := unset;
      if q != [] {
        hide ReviveAll;
        c := ReviveTopics(q, sid, pid);
      }
      if c != NULL && c in ctxs {
        ctxs := ctxs[c := ctxs[c].(pid := pid)];
      }
      ghost var t, k := hash.topics, hash.cached;
      hash.RestoreTopicAll(sid, pid);
      EntryIs(t, hash.topics, pid);
      EntryIs(k, hash.cached, sid);
    }

    /**
     * `restore_session`, called in the CONNACK branch. To a pipe without filters the records agree
     * afterwards if and only if an unset context does not hit that of a connected pipe.
     */
    method Connect(sid: Id, pid: Id, unset: Ctxt)
      requires Valid() && InWindow(db.pipeLo, pid) && InWindow(db.sidLo, sid)
      modifies this`ctxs, hash, db`nodes, db`flat, db.nodes.Values
      ensures Sound() && fresh(db.nodes.Values - old(db.nodes.Values))
      ensures Abs() == Restored(old(Abs()), sid, pid, unset)
      ensures Get(old(hash.topics), pid) == [] ==> (Valid() <==> !old(Stray(Abs(), sid, unset)))
    {
      hide Inv, Split, NoDup, Restored, Stray, Sound;
      if Get(hash.topics, pid) == [] { RestoredKeepsInvIff(Abs(), sid, pid, unset); }
      HeldBySession(Abs(), sid);
      Reattach(sid, pid, unset);
    }

    /**
     * A publish, over the whole broker: it is delivered to the contexts of exactly those pipes whose
     * topic lists hold a matching filter, and queued once for exactly those absent sessions. As written
     * (`append` false) a context is served once if and only if no pipe id below the first one found
     * is found twice.
     */
    method Send(topic: string, msg: Msg, append: bool) returns (ctxts: seq<Ctxt>, ghost found: seq<Dedup.Client>)
      requires Valid() && WildcardFree(Split(topic))
      modifies db`queue
      ensures Valid() && Abs() == old(Abs())
      ensures forall c :: c in ctxts <==>
                exists pid: Id :: Wants(Abs(), Pipe(pid), Split(topic)) && c == CtxOf(Abs(), Pipe(pid))
      ensures (forall i, j :: 0 <= i < j < |ctxts| ==> ctxts[i] != ctxts[j]) <==>
                append || !MetTwice(Abs(), Split(topic))
      ensures Order.Gathered(db.flat.live, Split(topic), found)
      ensures ctxts == Dedup.Ctxts(Dedup.Survivors(found, append))
      ensures forall id: Id :: Publish.Backlog(db.queue, id) ==
                old(Publish.Backlog(db.queue, id)) + (if Wants(Abs(), Away(id), Split(topic)) then [msg] else [])
    {
      hide Inv, Split, DbTree.Valid, Publish.Backlog, CtxOf, Publish.Subscribed, Wants, Publish.Listeners;
      hide Dedup.LowRepeat, Dedup.Survivors, Order.Gathered, Order.LowPair, MetTwice;
      var cnt;
      ctxts, cnt, found := Publish.SearchClient(db, topic, msg, 0, append);
      MinimalSame();
      forall id: Id
        ensures id in Publish.Listeners(db.flat.sess, Split(topic)) <==> Wants(Abs(), Away(id), Split(topic))
      {
        Runs.ListenersAreListed(Abs(), Away(id), Split(topic));
      }
      forall c ensures c in ctxts <==>
                exists pid: Id :: Wants(Abs(), Pipe(pid), Split(topic)) && c == CtxOf(Abs(), Pipe(pid)) {
        DeliveredTo(Abs(), Split(topic), found, append, c);
      }
      ServedOnceIff(Abs(), Split(topic), found, append);
      Order.LowRepeatIff(db.flat.live, Split(topic), found);
      MetTwiceIff(Abs(), Split(topic));
    }

    /** `dbtree_restore_session_msg`: hands a session what waits for it, and forgets it. */
    method Drain(sid: Id) returns (msgs: seq<Msg>)
      requires Valid() && InWindow(db.sidLo, sid)
      modifies db`queue
      ensures Valid() && Abs() == old(Abs()) && msgs == old(Publish.Backlog(db.queue, sid))
      ensures forall x: Id :: Publish.Backlog(db.queue, x) == if x == sid then [] else old(Publish.Backlog(db.queue, x))
    {
      hide Inv, DbTree.Valid, Publish.Backlog;
      msgs := Publish.SearchSession(db, sid);
      MinimalSame();
    }

    twostate lemma MinimalSame()
      requires old(db.Minimal()) && db.nodes == old(db.nodes) && forall p :: p in db.nodes ==> unchanged(db.nodes[p])
      ensures db.Minimal()
    {
      assert forall p :: p in db.nodes && p != [] ==> !old(Spent(db.nodes[p]));
    }
  }

  /** Every record found for a pipe carries the pipe's one context. */
  lemma RecordCtx(s: State, t: Path, e: Dedup.Client)
    requires Inv(s)
    ensures Publish.Subscribed(s.flat.live, t, e) <==> Wants(s, Pipe(e.id), t) && e.val == CtxOf(s, Pipe(e.id))
  {
    hide Split, Matches, Serves;
    var o := Pipe(e.id);
    assert Agrees(s, o);
    if f :| Matches(f, t) && (f, e.id) in s.flat.live && s.flat.live[(f, e.id)] == e.val {
      assert At(s, o, f) == Wrappers.Some(e.val);
      var g :| g in ListOf(s, o) && Split(g) == f;
      assert At(s, o, Split(g)) == Wrappers.Some(CtxOf(s, o));
    }
    if Wants(s, o, t) && e.val == CtxOf(s, o) {
      var f :| f in ListOf(s, o) && Matches(Split(f), t);
      assert At(s, o, Split(f)) == Wrappers.Some(e.val);
      assert (Split(f), e.id) in s.flat.live;
    }
  }

  lemma DeliveredTo(s: State, t: Path, recs: seq<Dedup.Client>, append: bool, c: Ctxt)
    requires Inv(s) && forall e :: e in recs <==> Publish.Subscribed(s.flat.live, t, e)
    ensures c in Dedup.Ctxts(Dedup.Survivors(recs, append)) <==>
              exists pid: Id :: Wants(s, Pipe(pid), t) && c == CtxOf(s, Pipe(pid))
  {
    hide Inv, Wants, CtxOf, Publish.Subscribed, Dedup.FirstSeen, Dedup.Passing;
    var r := Dedup.Survivors(recs, append);
    Dedup.FirstSeenExact(recs);
    Dedup.PassingKeepsAll(recs);
    var out := Dedup.Ctxts(r);
    if c in out {
      var i :| 0 <= i < |out| && out[i] == c;
      assert r[i] in r && r[i] in recs;
      RecordCtx(s, t, r[i]);
    }
    if pid: Id :| Wants(s, Pipe(pid), t) && c == CtxOf(s, Pipe(pid)) {
      var e := Entry(pid, c);
      RecordCtx(s, t, e);
      assert e in recs;
      var i :| 0 <= i < |recs| && recs[i] == e;
      assert recs[i].id == pid && HasId(recs, pid);
      var j :| 0 <= j < |r| && r[j].id == pid;
      assert r[j] in r && r[j] in recs;
      RecordCtx(s, t, r[j]);
      assert out[j] == c;
    }
  }

  /** The pipe's topic list holds the filter, and it matches. */
  ghost predicate Meets(s: State, t: Path, pid: Id, f: string) { f in Get(s.topics, pid) && Matches(Split(f), t) }

  /** Of all pipes and filters that a publish meets, these come first. */
  ghost predicate MetFirst(s: State, t: Path, pid: Id, f: string) {
    && Meets(s, t, pid, f)
    && forall x: Id, g :: Meets(s, t, x, g) && (x, g) != (pid, f) ==> Order.Precedes((Split(f), pid), (Split(g), x))
  }

  /** A pipe with a lower id than the one met first lists two filters that match. */
  ghost predicate MetTwice(s: State, t: Path) {
    exists pid: Id, f, x: Id, g, h ::
      MetFirst(s, t, pid, f) && x < pid && g != h && Meets(s, t, x, g) && Meets(s, t, x, h)
  }

  /** A list holds a filter if and only if the tree holds the pipe there. */
  lemma ListedIff(s: State, pid: Id, f: string)
    requires Inv(s)
    ensures f in Get(s.topics, pid) <==> (Split(f), pid) in s.flat.live
  {
    hide Split, Serves;
    var o := Pipe(pid);
    assert Agrees(s, o);
    if f in Get(s.topics, pid) { assert At(s, o, Split(f)).Some?; }
    if (Split(f), pid) in s.flat.live {
      assert At(s, o, Split(f)).Some?;
      var g :| g in ListOf(s, o) && Split(g) == Split(f);
      SplitInjective(f, g);
    }
  }

  lemma FilterAt(s: State, pid: Id, p: Path) returns (f: string)
    requires Inv(s) && (p, pid) in s.flat.live
    ensures f in Get(s.topics, pid) && Split(f) == p
  {
    hide Split, Serves;
    assert Agrees(s, Pipe(pid)) && At(s, Pipe(pid), p).Some?;
    f :| f in Get(s.topics, pid) && Split(f) == p;
  }

  lemma MetFirstIff(s: State, t: Path, pid: Id, f: string)
    requires Inv(s)
    ensures MetFirst(s, t, pid, f) <==> Order.First(s.flat.live, t, (Split(f), pid))
  {
    hide Inv, Split, Matches, Order.Precedes;
    ListedIff(s, pid, f);
    if MetFirst(s, t, pid, f) {
      forall x | x in s.flat.live && Matches(x.0, t) && x != (Split(f), pid)
        ensures Order.Precedes((Split(f), pid), x)
      {
        var g := FilterAt(s, x.1, x.0);
        assert Meets(s, t, x.1, g) && (x.1, g) != (pid, f);
      }
    }
    if Order.First(s.flat.live, t, (Split(f), pid)) {
      forall x: Id, g | Meets(s, t, x, g) && (x, g) != (pid, f)
        ensures Order.Precedes((Split(f), pid), (Split(g), x))
      {
        ListedIff(s, x, g);
        if Split(g) == Split(f) { SplitInjective(g, f); }
      }
    }
  }

  lemma MetTwiceIff(s: State, t: Path)
    requires Inv(s)
    ensures MetTwice(s, t) <==> Order.LowPair(s.flat.live, t)
  {
    hide Inv, MetTwice, Order.LowPair;
    TwiceIsPair(s, t);
    PairIsTwice(s, t);
  }

  lemma TwiceIsPair(s: State, t: Path)
    requires Inv(s)
    ensures MetTwice(s, t) ==> Order.LowPair(s.flat.live, t)
  {
    hide Inv, Split, Matches, MetFirst, Order.First;
    if pid: Id, f, x: Id, g, h :|
      MetFirst(s, t, pid, f) && x < pid && g != h && Meets(s, t, x, g) && Meets(s, t, x, h)
    {
      MetFirstIff(s, t, pid, f);
      ListedIff(s, x, g);
      ListedIff(s, x, h);
      if Split(g) == Split(h) { SplitInjective(g, h); }
    }
  }

  lemma PairIsTwice(s: State, t: Path)
    requires Inv(s)
    ensures Order.LowPair(s.flat.live, t) ==> MetTwice(s, t)
  {
    hide Inv, Split, Matches, MetFirst, Order.First;
    if k: Order.Key, p: Path, q: Path, x: Id :|
      && Order.First(s.flat.live, t, k) && x < k.1 && p != q
      && (p, x) in s.flat.live && Matches(p, t) && (q, x) in s.flat.live && Matches(q, t)
    {
      FirstInLive(s.flat.live, t, k);
      var f := FilterAt(s, k.1, k.0);
      var g := FilterAt(s, x, p);
      var h := FilterAt(s, x, q);
      MetFirstIff(s, t, k.1, f);
      assert Meets(s, t, x, g) && Meets(s, t, x, h);
    }
  }

  lemma FirstInLive(live: map<Order.Key, Ctxt>, t: Path, k: Order.Key)
    requires Order.First(live, t, k)
    ensures k in live
  {
  }

  /** No context is served twice, exactly when the sorted deduplication does its work. */
  lemma ServedOnceIff(s: State, t: Path, recs: seq<Dedup.Client>, append: bool)
    requires Inv(s) && forall e :: e in recs <==> Publish.Subscribed(s.flat.live, t, e)
    ensures
      var out := Dedup.Ctxts(Dedup.Survivors(recs, append));
      (forall i, j :: 0 <= i < j < |out| ==> out[i] != out[j]) <==> append || !Dedup.LowRepeat(recs)
  {
    hide Inv, CtxOf, Publish.Subscribed, Dedup.FirstSeen, Dedup.Passing, Dedup.LowRepeat;
    var r := Dedup.Survivors(recs, append);
    Dedup.FirstSeenExact(recs);
    Dedup.PassingKeepsAll(recs);
    Dedup.PassingOnceIff(recs);
    assert Dedup.OncePerId(r) <==> append || !Dedup.LowRepeat(recs);
    var out := Dedup.Ctxts(r);
    forall i, j | 0 <= i < j < |r| ensures r[i].id == r[j].id <==> out[i] == out[j] {
      assert r[i] in r && r[j] in r && r[i] in recs && r[j] in recs;
      PipesApart(s, t, r[i], r[j]);
    }
  }

  /** Records of one pipe share its context, records of different pipes do not. */
  lemma PipesApart(s: State, t: Path, d: Dedup.Client, e: Dedup.Client)
    requires Inv(s) && Publish.Subscribed(s.flat.live, t, d) && Publish.Subscribed(s.flat.live, t, e)
    ensures d.id == e.id <==> d.val == e.val
  {
    hide Publish.Subscribed, CtxOf, Agrees, Matches, Split;
    RecordCtx(s, t, d);
    RecordCtx(s, t, e);
    assert ListOf(s, Pipe(d.id)) != [] && ListOf(s, Pipe(e.id)) != [];
  }

  lemma SubscribeAllStep(s: State, pid: Id, c: Ctxt, fs: seq<string>)
    requires fs != []
    ensures SubscribeAll(s, pid, c, fs) == SubscribeAll(SubscribeOne(s, pid, c, fs[0]), pid, c, fs[1..])
  {
  }

  lemma SubscribeAllDone(s: State, pid: Id, c: Ctxt, fs: seq<string>)
    requires fs == []
    ensures SubscribeAll(s, pid, c, fs) == s
  {
  }

  lemma TakeNext(fs: seq<string>, n: nat)
    requires n < |fs|
    ensures fs[n..][0] == fs[n] && fs[n..][1..] == fs[n + 1..]
    ensures forall g :: g in fs[..n + 1] <==> g in fs[..n] || g == fs[n]
  {
    assert fs[..n + 1] == fs[..n] + [fs[n]];
  }

  lemma UnsubscribeStepSpec(s: State, pid: Id, fs: seq<string>)
    requires fs != []
    ensures Sessions.Unsubscribe(s, pid, fs) == Sessions.Unsubscribe(UnsubscribeOne(s, pid, fs[0]), pid, fs[1..])
  {
  }

  lemma UnsubscribeDone(s: State, pid: Id, fs: seq<string>)
    requires fs == []
    ensures Sessions.Unsubscribe(s, pid, fs) == s
  {
  }

  /** Unlinking from an empty list changes nothing, and dropping a filter leaves the tables alone. */
  lemma UnlinkSpec(s: State, pid: Id, f: string, m: TopicHash)
    requires OnlyEntry(s.topics, m, pid) && Get(m, pid) == Without(Get(s.topics, pid), f)
    requires pid in m <==> Get(s.topics, pid) != [f]
    ensures m == Unlinked(s.topics, pid, f) && DropOne(s, pid, f).topics == s.topics
  {
    hide Split, Remove;
    EntryIs(s.topics, m, pid);
  }

  lemma NothingToClear(s: State, pid: Id)
    requires pid !in s.topics
    ensures Cleared(s, pid) == s
  {
  }

  lemma HeldByPipe(s: State, pid: Id)
    requires Inv(s)
    ensures NoDup(Get(s.topics, pid))
    ensures forall j :: 0 <= j < |Get(s.topics, pid)| ==> (Split(Get(s.topics, pid)[j]), pid) in s.flat.live
  {
    var q := Get(s.topics, pid);
    assert Agrees(s, Pipe(pid));
    forall j | 0 <= j < |q| ensures (Split(q[j]), pid) in s.flat.live {
      assert q[j] in q && At(s, Pipe(pid), Split(q[j])).Some?;
    }
  }

  lemma HeldBySession(s: State, sid: Id)
    requires Inv(s)
    ensures NoDup(Get(s.cached, sid))
    ensures forall j :: 0 <= j < |Get(s.cached, sid)| ==> (Split(Get(s.cached, sid)[j]), sid) in s.flat.sess
  {
    var q := Get(s.cached, sid);
    assert Agrees(s, Away(sid));
    forall j | 0 <= j < |q| ensures (Split(q[j]), sid) in s.flat.sess {
      assert q[j] in q && At(s, Away(sid), Split(q[j])).Some?;
    }
  }

  lemma StillLive(flat: Flat, q: seq<string>, i: nat, j: nat, sid: Id, pid: Id)
    requires NoDup(q) && i < j < |q| && (Split(q[j]), pid) in flat.live
    ensures (Split(q[j]), pid) in Pulled(flat, Split(q[i]), sid, pid, DeleteFlag.CacheSession).live
  {
    if Split(q[i]) == Split(q[j]) { SplitInjective(q[i], q[j]); }
  }

  lemma StoredKnown(s: State, pid: Id)
    requires Inv(s)
    ensures StoredCtx(s, pid) != NULL ==> StoredCtx(s, pid) in s.ctxs
    ensures Refetched(s, pid) == s.(topics := Touched(s.topics, pid))
  {
    hide Split, Indexed, NoRepeat, Lists;
    assert Agrees(s, Pipe(pid));
    RefetchSame(s, pid);
  }

  lemma StillAway(flat: Flat, q: seq<string>, i: nat, j: nat, sid: Id, pid: Id)
    requires NoDup(q) && i < j < |q| && (Split(q[j]), sid) in flat.sess
    ensures (Split(q[j]), sid) in Revived(flat, Split(q[i]), sid, pid).sess
  {
    if Split(q[i]) == Split(q[j]) { SplitInjective(q[i], q[j]); }
  }

  lemma CacheAllStep(flat: Flat, q: seq<string>, sid: Id, pid: Id)
    requires q != []
    ensures CacheAll(flat, q, sid, pid) ==
            CacheAll(Pulled(flat, Split(q[0]), sid, pid, DeleteFlag.CacheSession), q[1..], sid, pid)
  {
  }

  lemma CacheAllDone(flat: Flat, q: seq<string>, sid: Id, pid: Id)
    requires q == []
    ensures CacheAll(flat, q, sid, pid) == flat
  {
  }

  lemma DropAllStep(s: State, pid: Id, q: seq<string>)
    requires q != []
    ensures DropAll(s, pid, q) == DropAll(DropOne(s, pid, q[0]), pid, q[1..])
  {
  }

  lemma DropAllDone(s: State, pid: Id, q: seq<string>)
    requires q == []
    ensures DropAll(s, pid, q) == s
  {
  }

  lemma ReviveAllStep(flat: Flat, q: seq<string>, sid: Id, pid: Id)
    requires q != []
    ensures ReviveAll(flat, q, sid, pid) == ReviveAll(Revived(flat, Split(q[0]), sid, pid), q[1..], sid, pid)
    ensures LastRevived(flat, q, sid, pid) ==
              if |q| == 1 then Looked(flat.sess, Split(q[0]), sid)
              else LastRevived(Revived(flat, Split(q[0]), sid, pid), q[1..], sid, pid)
  {
  }

  lemma ReviveAllDone(flat: Flat, q: seq<string>, sid: Id, pid: Id)
    requires q == []
    ensures ReviveAll(flat, q, sid, pid) == flat
  {
  }
}
