/** Persistent sessions: caching on disconnect, restoring on reconnect, and what whole runs keep. */
module Reconnect {
  import opened Wrappers
  import opened Topics
  import opened Entries
  import opened Nodes
  import opened Tree
  import opened Options
  import opened Sessions

  ghost function CacheAll(flat: Flat, q: seq<string>, sid: Id, pid: Id): Flat
    decreases q
  {
    if q == [] then flat else CacheAll(Pulled(flat, Split(q[0]), sid, pid, CacheSession), q[1..], sid, pid)
  }

  ghost function ReviveAll(flat: Flat, q: seq<string>, sid: Id, pid: Id): Flat
    decreases q
  {
    if q == [] then flat else ReviveAll(Revived(flat, Split(q[0]), sid, pid), q[1..], sid, pid)
  }

  /** The context returned for the last topic restored. */
  ghost function LastRevived(flat: Flat, q: seq<string>, sid: Id, pid: Id): Ctxt
    requires q != []
    decreases q
  {
    if |q| == 1 then Looked(flat.sess, Split(q[0]), sid)
    else LastRevived(Revived(flat, Split(q[0]), sid, pid), q[1..], sid, pid)
  }

  /**
   * `cache_session`: index entries move to the session, and the topic list with them. It goes by whether the
   * pipe has an entry, so one that lists nothing is cached over whatever the session listed.
   */
  ghost function Cached(s: State, pid: Id, sid: Id): State {
    if pid !in s.topics then s
    else
      var q := s.topics[pid];
      s.(flat := CacheAll(s.flat, q, sid, pid), cached := s.cached[sid := q], topics := s.topics - {pid})
  }

  /** A context told which pipe it serves now. */
  ghost function Readdressed(ctxs: map<Ctxt, Ctx>, c: Ctxt, pid: Id): map<Ctxt, Ctx> {
    if c != NULL && c in ctxs then ctxs[c := ctxs[c].(pid := pid)] else ctxs
  }

  /**
   * `restore_session`: the session's entries, list and context move to the new pipe. A cached entry that
   * lists nothing leaves the context variable as it was, unset: it holds `unset`, whatever that is.
   */
  ghost function Restored(s: State, sid: Id, pid: Id, unset: Ctxt): State {
    if sid !in s.cached then s
    else
      var q := s.cached[sid];
      var c := if q == [] then unset else LastRevived(s.flat, q, sid, pid);
      s.(flat := ReviveAll(s.flat, q, sid, pid), ctxs := Readdressed(s.ctxs, c, pid),
         topics := s.topics[pid := q], cached := s.cached - {sid})
  }

  /** A restore sets the context that it uses. */
  predicate Defined(s: State, sid: Id) { sid !in s.cached || s.cached[sid] != [] }

  lemma AmongCons(q: seq<string>, p: Path)
    requires q != []
    ensures AmongPaths(q, p) <==> Split(q[0]) == p || AmongPaths(q[1..], p)
  {
    hide Split;
    assert q == [q[0]] + q[1..];
    if AmongPaths(q, p) { var f :| f in q && Split(f) == p; assert f == q[0] || f in q[1..]; }
    if AmongPaths(q[1..], p) { var f :| f in q[1..] && Split(f) == p; assert f in q; }
    assert q[0] in q;
  }

  ghost function AtFlat(m: map<(Path, Id), Ctxt>, p: Path, id: Id): Option<Ctxt> {
    if (p, id) in m then Some(m[(p, id)]) else None
  }

  lemma {:induction false} CacheAllExact(flat: Flat, q: seq<string>, sid: Id, pid: Id, p: Path, id: Id)
    ensures
      var r := CacheAll(flat, q, sid, pid);
      && r.retained == flat.retained
      && AtFlat(r.live, p, id) == (if id == pid && AmongPaths(q, p) then None else AtFlat(flat.live, p, id))
      && AtFlat(r.sess, p, id) ==
           (if AtFlat(flat.sess, p, id).None? && id == sid && AmongPaths(q, p) then Some(Looked(flat.live, p, pid))
            else AtFlat(flat.sess, p, id))
    decreases q
  {
    hide Split;
    if q == [] {
      assert !AmongPaths(q, p);
    } else {
      AmongCons(q, p);
      CacheAllExact(Pulled(flat, Split(q[0]), sid, pid, CacheSession), q[1..], sid, pid, p, id);
    }
  }

  lemma {:induction false} ReviveAllExact(flat: Flat, q: seq<string>, sid: Id, pid: Id, p: Path, id: Id)
    ensures
      var r := ReviveAll(flat, q, sid, pid);
      && r.retained == flat.retained
      && AtFlat(r.sess, p, id) == (if id == sid && AmongPaths(q, p) then None else AtFlat(flat.sess, p, id))
      && AtFlat(r.live, p, id) ==
           (if AtFlat(flat.live, p, id).None? && id == pid && AmongPaths(q, p) then AtFlat(flat.sess, p, sid)
            else AtFlat(flat.live, p, id))
    decreases q
  {
    hide Split;
    if q == [] {
      assert !AmongPaths(q, p);
    } else {
      AmongCons(q, p);
      ReviveAllExact(Revived(flat, Split(q[0]), sid, pid), q[1..], sid, pid, p, id);
    }
  }

  lemma {:induction false} LastRevivedIs(flat: Flat, q: seq<string>, sid: Id, pid: Id, c: Ctxt)
    requires q != [] && NoDup(q) && forall f :: f in q ==> AtFlat(flat.sess, Split(f), sid) == Some(c)
    ensures LastRevived(flat, q, sid, pid) == c
    decreases q
  {
    hide Split;
    assert q[0] in q;
    if |q| > 1 {
      var flat' := Revived(flat, Split(q[0]), sid, pid);
      forall f | f in q[1..] ensures AtFlat(flat'.sess, Split(f), sid) == Some(c) {
        assert f in q;
        if Split(f) == Split(q[0]) { SplitInjective(f, q[0]); }
      }
      LastRevivedIs(flat', q[1..], sid, pid, c);
    }
  }

  /** All of one owner's records become another's; nobody else is touched. */
  ghost predicate Moved(s: State, s': State, a: Owner, b: Owner) {
    && ListOf(s', b) == ListOf(s, a) && ListOf(s', a) == []
    && (forall p :: At(s', b, p) == At(s, a, p))
    && (forall p :: At(s', a, p).None?)
    && (forall x :: x != a && x != b ==> Untouched(s, s', x))
    && s'.next == s.next
    && (ListOf(s, a) != [] ==>
          && CtxOf(s, a) in s.ctxs && CtxOf(s, a) in s'.ctxs
          && s'.ctxs[CtxOf(s, a)].subs == s.ctxs[CtxOf(s, a)].subs
          && (b.Pipe? ==> s'.ctxs[CtxOf(s, a)].pid == b.id))
  }

  /** Moving an agreeing owner onto a vacant one keeps the invariant, and the context moves along. */
  lemma MovedKeepsInv(s: State, s': State, a: Owner, b: Owner)
    requires Inv(s) && a != b && ListOf(s, b) == [] && Moved(s, s', a, b)
    ensures Inv(s') && CtxOf(s', b) == CtxOf(s, a)
  {
    hide Split, NoRepeat, Lists, Untouched;
    assert Agrees(s, a);
    var q := ListOf(s, a);
    assert CtxOf(s', b) == CtxOf(s, a);
    assert Agrees(s', b) by {
      forall p | At(s', b, p).Some? ensures AmongPaths(q, p) { assert At(s, a, p).Some?; }
    }
    assert Agrees(s', a);
    forall x ensures Agrees(s', x) { if x != a && x != b { UntouchedAgrees(s, s', x); } }
    forall x, y | x != y && ListOf(s', x) != [] && ListOf(s', y) != [] ensures CtxOf(s', x) != CtxOf(s', y) {
      MovedApart(s, s', a, b, x, y);
    }
  }

  lemma MovedApart(s: State, s': State, a: Owner, b: Owner, x: Owner, y: Owner)
    requires Inv(s) && a != b && Moved(s, s', a, b) && CtxOf(s', b) == CtxOf(s, a)
    requires x != y && ListOf(s', x) != [] && ListOf(s', y) != []
    ensures CtxOf(s', x) != CtxOf(s', y)
  {
    hide Agrees, Split;
    assert Agrees(s, x) && Agrees(s, y);
    var x0, y0 := if x == b then a else x, if y == b then a else y;
    assert x != a && y != a && x0 != y0;
    if x != b { UntouchedAgrees(s, s', x); }
    if y != b { UntouchedAgrees(s, s', y); }
    assert ListOf(s, x0) != [] && ListOf(s, y0) != [];
  }

  lemma AtIsFlat(s: State, o: Owner, p: Path)
    ensures At(s, o, p) == AtFlat(if o.Pipe? then s.flat.live else s.flat.sess, p, o.id)
  {
  }

  /** What `Cached` does to any owner's entry at any path, whatever was cached before. */
  lemma CachedEntries(s: State, pid: Id, sid: Id, o: Owner, p: Path)
    requires pid in s.topics
    ensures
      var q, s' := Get(s.topics, pid), Cached(s, pid, sid);
      At(s', o, p) ==
        if o == Pipe(pid) && AmongPaths(q, p) then None
        else if o == Away(sid) && AmongPaths(q, p) && At(s, o, p).None? then Some(Looked(s.flat.live, p, pid))
        else At(s, o, p)
  {
    hide Split, CacheAll;
    CacheAllExact(s.flat, Get(s.topics, pid), sid, pid, p, o.id);
  }

  lemma CachedLists(s: State, pid: Id, sid: Id, o: Owner)
    requires pid in s.topics
    ensures ListOf(Cached(s, pid, sid), o) ==
              if o == Pipe(pid) then [] else if o == Away(sid) then Get(s.topics, pid) else ListOf(s, o)
    ensures Cached(s, pid, sid).ctxs == s.ctxs && Cached(s, pid, sid).next == s.next
  {
    hide CacheAll;
  }

  /** Anyone but the pipe and the session is untouched by caching. */
  lemma CachedOthers(s: State, pid: Id, sid: Id, x: Owner)
    requires Inv(s) && x != Pipe(pid) && x != Away(sid)
    ensures Untouched(s, Cached(s, pid, sid), x)
  {
    hide Split, NoRepeat, Lists, Indexed, CacheAll, Cached;
    assert Agrees(s, x);
    if pid !in s.topics {
      assert Cached(s, pid, sid) == s by { CachedNothing(s, pid, sid); }
    } else {
      CachedLists(s, pid, sid, x);
      forall p ensures At(Cached(s, pid, sid), x, p) == At(s, x, p) { CachedEntries(s, pid, sid, x, p); }
    }
  }

  lemma CachedNothing(s: State, pid: Id, sid: Id)
    requires pid !in s.topics
    ensures Cached(s, pid, sid) == s
  {
  }

  /** Caching onto a vacant session moves the pipe's records to it. */
  lemma CachedMoves(s: State, pid: Id, sid: Id)
    requires Inv(s) && Get(s.cached, sid) == []
    ensures Moved(s, Cached(s, pid, sid), Pipe(pid), Away(sid))
  {
    hide Split, NoRepeat, Lists, Cached, Untouched;
    var a, b, s' := Pipe(pid), Away(sid), Cached(s, pid, sid);
    assert Agrees(s, a) && Agrees(s, b);
    forall x | x != a && x != b ensures Untouched(s, s', x) { CachedOthers(s, pid, sid, x); }
    VacantOwner(s, b);
    if pid !in s.topics {
      CachedNothing(s, pid, sid);
      VacantOwner(s, a);
    } else {
      CachedLists(s, pid, sid, a);
      CachedLists(s, pid, sid, b);
      forall p ensures At(s', a, p).None? && At(s', b, p) == At(s, a, p) {
        CachedEntries(s, pid, sid, a, p);
        CachedEntries(s, pid, sid, b, p);
        LookedAt(s, pid, p);
      }
    }
  }

  lemma VacantOwner(s: State, o: Owner)
    requires Agrees(s, o) && ListOf(s, o) == []
    ensures forall p :: At(s, o, p).None?
  {
    forall p ensures At(s, o, p).None? { assert !AmongPaths([], p); }
  }

  lemma LookedAt(s: State, pid: Id, p: Path)
    requires Agrees(s, Pipe(pid))
    ensures At(s, Pipe(pid), p).Some? <==> AmongPaths(Get(s.topics, pid), p)
    ensures At(s, Pipe(pid), p).Some? ==> At(s, Pipe(pid), p) == Some(Looked(s.flat.live, p, pid))
  {
    if AmongPaths(Get(s.topics, pid), p) {
      var f :| f in Get(s.topics, pid) && Split(f) == p;
    }
  }

  /** Restoring onto a vacant pipe moves the session's records to it. */
  lemma RestoredMoves(s: State, sid: Id, pid: Id, unset: Ctxt)
    requires Inv(s) && Get(s.topics, pid) == [] && Defined(s, sid)
    ensures Moved(s, Restored(s, sid, pid, unset), Away(sid), Pipe(pid))
  {
    hide Split, NoRepeat, Lists, ReviveAll, LastRevived;
    var a, b, s' := Away(sid), Pipe(pid), Restored(s, sid, pid, unset);
    var q, c := ListOf(s, a), CtxOf(s, a);
    assert Agrees(s, a) && Agrees(s, b);
    VacantOwner(s, b);
    if q == [] {
      VacantOwner(s, a);
      forall x | x != a && x != b ensures Untouched(s, s', x) { assert Agrees(s, x); }
    } else {
      forall f | f in q ensures AtFlat(s.flat.sess, Split(f), sid) == Some(c) { AtIsFlat(s, a, Split(f)); }
      LastRevivedIs(s.flat, q, sid, pid, c);
      forall o, p ensures At(s', o, p) == (if o == a then None else if o == b then At(s, a, p) else At(s, o, p)) {
        RestoredEntries(s, sid, pid, unset, o, p);
      }
      forall x | x != a && x != b ensures Untouched(s, s', x) { RestoredOthers(s, s', a, b, x); }
    }
  }

  lemma RestoredEntries(s: State, sid: Id, pid: Id, unset: Ctxt, o: Owner, p: Path)
    requires Get(s.cached, sid) != [] && Agrees(s, Away(sid)) && At(s, Pipe(pid), p).None?
    ensures At(Restored(s, sid, pid, unset), o, p) ==
              (if o == Away(sid) then None else if o == Pipe(pid) then At(s, Away(sid), p) else At(s, o, p))
  {
    hide Split, ReviveAll, LastRevived, Agrees;
    ReviveAllExact(s.flat, Get(s.cached, sid), sid, pid, p, o.id);
    SessionAt(s, sid, p);
    AtIsFlat(s, o, p);
    AtIsFlat(s, Pipe(pid), p);
    AtIsFlat(s, Away(sid), p);
  }

  lemma RestoredOthers(s: State, s': State, a: Owner, b: Owner, x: Owner)
    requires Inv(s) && x != a && x != b && a != b && ListOf(s, a) != [] && CtxOf(s, a) in s.ctxs
    requires forall p :: At(s', x, p) == At(s, x, p)
    requires ListOf(s', x) == ListOf(s, x) && s'.next == s.next
    requires s'.ctxs.Keys == s.ctxs.Keys && forall c :: c in s.ctxs && c != CtxOf(s, a) ==> s'.ctxs[c] == s.ctxs[c]
    ensures Untouched(s, s', x)
  {
    hide Indexed, Split, NoRepeat, Lists;
    assert Agrees(s, x);
    assert ListOf(s, x) != [] ==> CtxOf(s, x) != CtxOf(s, a);
  }

  lemma SessionAt(s: State, sid: Id, p: Path)
    requires Agrees(s, Away(sid))
    ensures At(s, Away(sid), p).Some? <==> AmongPaths(Get(s.cached, sid), p)
  {
    if AmongPaths(Get(s.cached, sid), p) {
      var f :| f in Get(s.cached, sid) && Split(f) == p;
    }
  }

  /** Exactly when the restore that follows a persistent disconnect is defined. */
  lemma DefinedAfterIff(s: State, pid: Id, sid: Id)
    ensures Defined(Cached(s, pid, sid), sid) <==> if pid in s.topics then s.topics[pid] != [] else Defined(s, sid)
  {
    hide CacheAll;
  }

  /**
   * Disconnect and reconnect of a persistent session: while away the session, and no live client, is
   * indexed at each filter; afterwards, if the restore is defined, the new pipe has the old pipe's
   * filters, context and options.
   */
  lemma SessionRoundTrip(s: State, pid: Id, sid: Id, pid': Id, unset: Ctxt)
    requires Inv(s) && Get(s.cached, sid) == [] && (pid' == pid || Get(s.topics, pid') == [])
    ensures
      var s1 := Cached(s, pid, sid);
      && Inv(s1) && (forall p :: At(s1, Away(sid), p) == At(s, Pipe(pid), p) && At(s1, Pipe(pid), p).None?)
    ensures
      var s1 := Cached(s, pid, sid);
      var s2 := Restored(s1, sid, pid', unset);
      Defined(s1, sid) ==>
      && Inv(s2)
      && ListOf(s2, Pipe(pid')) == ListOf(s, Pipe(pid))
      && (forall p :: At(s2, Pipe(pid'), p) == At(s, Pipe(pid), p))
      && CtxOf(s2, Pipe(pid')) == CtxOf(s, Pipe(pid)) && SubsOf(s2, Pipe(pid')) == SubsOf(s, Pipe(pid))
      && (pid' != pid ==> ListOf(s2, Pipe(pid)) == [])
      && (forall x :: x != Pipe(pid) && x != Pipe(pid') ==> SameView(s, s2, x))
  {
    hide Cached, Restored, Split, Agrees, Untouched, NoRepeat, Lists;
    var s1 := Cached(s, pid, sid);
    var s2 := Restored(s1, sid, pid', unset);
    var a, w, b := Pipe(pid), Away(sid), Pipe(pid');
    CachedMoves(s, pid, sid);
    MovedKeepsInv(s, s1, a, w);
    if Defined(s1, sid) {
      if pid' != pid { UntouchedView(s, s1, b); }
      RestoredMoves(s1, sid, pid', unset);
      MovedKeepsInv(s1, s2, w, b);
      assert Agrees(s, w);
      VacantOwner(s, w);
      forall x | x != a && x != b ensures SameView(s, s2, x) {
        if x != w {
          UntouchedView(s, s1, x);
          UntouchedView(s1, s2, x);
        }
      }
      if pid' != pid { UntouchedView(s1, s2, a); }
    }
  }

  ghost predicate SameSet(q: seq<string>, r: seq<string>) { forall f :: f in q <==> f in r }

  /** No entry to cache, nothing listed for the session yet, or the very same filters. */
  ghost predicate CacheFits(s: State, pid: Id, sid: Id) {
    pid !in s.topics || Get(s.cached, sid) == [] || SameSet(s.topics[pid], Get(s.cached, sid))
  }

  /**
   * Exactly when a persistent disconnect keeps the records in agreement. A second connection of the same
   * client breaks it if it subscribed to anything else, or to nothing but has an entry.
   */
  lemma CachedKeepsInvIff(s: State, pid: Id, sid: Id)
    requires Inv(s)
    ensures Inv(Cached(s, pid, sid)) <==> CacheFits(s, pid, sid)
  {
    hide Cached, SameSet, Agrees;
    var k := Get(s.cached, sid);
    if pid !in s.topics {
      CachedNothing(s, pid, sid);
    } else if k == [] {
      CachedMoves(s, pid, sid);
      MovedKeepsInv(s, Cached(s, pid, sid), Pipe(pid), Away(sid));
    } else if SameSet(s.topics[pid], k) {
      SameNonempty(s.topics[pid], k);
      CachedOntoSame(s, pid, sid);
    } else {
      CachedOntoOther(s, pid, sid);
      assert Inv(Cached(s, pid, sid)) ==> Agrees(Cached(s, pid, sid), Away(sid));
    }
  }

  lemma SameNonempty(q: seq<string>, k: seq<string>)
    requires SameSet(q, k) && k != []
    ensures q != []
  {
    assert k[0] in k;
  }

  lemma CachedOntoOther(s: State, pid: Id, sid: Id)
    requires Inv(s) && pid in s.topics && Get(s.cached, sid) != [] && !SameSet(s.topics[pid], Get(s.cached, sid))
    ensures !Agrees(Cached(s, pid, sid), Away(sid))
  {
    hide Cached, Split, Serves;
    var q, k, s', b := Get(s.topics, pid), Get(s.cached, sid), Cached(s, pid, sid), Away(sid);
    assert Agrees(s, Pipe(pid)) && Agrees(s, b);
    CachedLists(s, pid, sid, b);
    if f :| f in k && f !in q {
      CachedEntries(s, pid, sid, b, Split(f));
      SplitAmong(q, f);
      assert At(s', b, Split(f)).Some?;
    } else {
      var f :| f in q && f !in k;
      SplitAmong(q, f);
      SplitAmong(k, f);
      LookedAt(s, pid, Split(f));
      CachedEntries(s, pid, sid, b, Split(f));
      assert At(s', b, Split(f)) == Some(CtxOf(s, Pipe(pid)));
      var g := k[0];
      assert g in k && g in q;
      CachedEntries(s, pid, sid, b, Split(g));
      assert At(s', b, Split(g)) == Some(CtxOf(s, b));
      assert CtxOf(s, Pipe(pid)) != CtxOf(s, b);
    }
  }

  lemma CachedOntoSame(s: State, pid: Id, sid: Id)
    requires Inv(s) && Get(s.topics, pid) != [] && Get(s.cached, sid) != [] &&
      SameSet(Get(s.topics, pid), Get(s.cached, sid))
    ensures Inv(Cached(s, pid, sid))
    ensures CtxOf(Cached(s, pid, sid), Away(sid)) == CtxOf(s, Away(sid))
  {
    hide Cached, Split, NoRepeat, Lists, Untouched;
    var q, k, s', a, b := Get(s.topics, pid), Get(s.cached, sid), Cached(s, pid, sid), Pipe(pid), Away(sid);
    assert Agrees(s, a) && Agrees(s, b);
    CachedLists(s, pid, sid, a);
    CachedLists(s, pid, sid, b);
    forall p ensures At(s', b, p) == At(s, b, p) && At(s', a, p).None? {
      CachedEntries(s, pid, sid, a, p);
      CachedEntries(s, pid, sid, b, p);
      SessionAt(s, sid, p);
      LookedAt(s, pid, p);
      AmongSame(q, k, p);
    }
    assert q[0] in q && k[0] in k;
    assert CtxOf(s', b) == CtxOf(s, b);
    forall p | At(s', b, p).Some? ensures AmongPaths(q, p) { assert At(s, b, p).Some?; AmongSame(q, k, p); }
    assert Agrees(s', b);
    assert Agrees(s', a);
    forall x ensures Agrees(s', x) {
      if x != a && x != b { CachedOthers(s, pid, sid, x); UntouchedAgrees(s, s', x); }
    }
    forall x, y | x != y && ListOf(s', x) != [] && ListOf(s', y) != [] ensures CtxOf(s', x) != CtxOf(s', y) {
      assert x != a && y != a;
      if x != b { CachedOthers(s, pid, sid, x); UntouchedAgrees(s, s', x); UntouchedView(s, s', x); }
      if y != b { CachedOthers(s, pid, sid, y); UntouchedAgrees(s, s', y); UntouchedView(s, s', y); }
    }
  }

  lemma AmongSame(q: seq<string>, k: seq<string>, p: Path)
    requires SameSet(q, k)
    ensures AmongPaths(q, p) <==> AmongPaths(k, p)
  {
    if AmongPaths(q, p) { var f :| f in q && Split(f) == p; assert f in k; }
    if AmongPaths(k, p) { var f :| f in k && Split(f) == p; assert f in q; }
  }

  /** The unset context variable happens to hold the context of a connected pipe. */
  ghost predicate Stray(s: State, sid: Id, unset: Ctxt) {
    !Defined(s, sid) && unset != NULL && exists x: Id :: Get(s.topics, x) != [] && CtxOf(s, Pipe(x)) == unset
  }

  /** Exactly when a restore to a pipe without filters keeps the records in agreement. */
  lemma RestoredKeepsInvIff(s: State, sid: Id, pid: Id, unset: Ctxt)
    requires Inv(s) && Get(s.topics, pid) == []
    ensures Inv(Restored(s, sid, pid, unset)) <==> !Stray(s, sid, unset)
    ensures Defined(s, sid) ==> !Stray(s, sid, unset)
  {
    hide Restored, Inv, CtxOf;
    var s' := Restored(s, sid, pid, unset);
    if Defined(s, sid) {
      RestoredMoves(s, sid, pid, unset);
      MovedKeepsInv(s, s', Away(sid), Pipe(pid));
    } else {
      RestoredUnset(s, sid, pid, unset);
      if Stray(s, sid, unset) {
        var x: Id :| Get(s.topics, x) != [] && CtxOf(s, Pipe(x)) == unset;
        StrayHits(s, s', pid, unset, x);
      } else {
        StrayMisses(s, s', pid, unset);
      }
    }
  }

  /** A cached entry that lists nothing: nothing moves, but a context may be readdressed. */
  lemma RestoredUnset(s: State, sid: Id, pid: Id, unset: Ctxt)
    requires !Defined(s, sid) && Get(s.topics, pid) == []
    ensures var s' := Restored(s, sid, pid, unset);
            && s'.flat == s.flat && s'.next == s.next && s'.ctxs == Readdressed(s.ctxs, unset, pid)
            && forall x :: ListOf(s', x) == ListOf(s, x)
  {
    assert ReviveAll(s.flat, [], sid, pid) == s.flat;
  }

  lemma StrayHits(s: State, s': State, pid: Id, unset: Ctxt, x: Id)
    requires Inv(s) && Get(s.topics, pid) == [] && s'.flat == s.flat && s'.ctxs == Readdressed(s.ctxs, unset, pid)
    requires forall o :: ListOf(s', o) == ListOf(s, o)
    requires Get(s.topics, x) != [] && CtxOf(s, Pipe(x)) == unset != NULL
    ensures !Inv(s')
  {
    hide Split, NoRepeat, Lists, Indexed;
    var o := Pipe(x);
    assert Agrees(s, o);
    assert forall p :: At(s', o, p) == At(s, o, p);
    assert CtxOf(s', o) == unset && s'.ctxs[unset].pid == pid != x;
    assert !Agrees(s', o);
  }

  lemma StrayMisses(s: State, s': State, pid: Id, unset: Ctxt)
    requires Inv(s) && s'.flat == s.flat && s'.next == s.next && s'.ctxs == Readdressed(s.ctxs, unset, pid)
    requires forall o :: ListOf(s', o) == ListOf(s, o)
    requires unset == NULL || forall x: Id :: Get(s.topics, x) != [] ==> CtxOf(s, Pipe(x)) != unset
    ensures Inv(s')
  {
    hide Split, NoRepeat, Lists;
    forall o ensures CtxOf(s', o) == CtxOf(s, o) && Agrees(s', o) {
      assert Agrees(s, o);
      assert forall p :: At(s', o, p) == At(s, o, p);
      var q := ListOf(s, o);
      forall p | At(s', o, p).Some? ensures AmongPaths(q, p) { assert At(s, o, p).Some?; }
      if o.Pipe? && q != [] { assert ListOf(s, Pipe(o.id)) == Get(s.topics, o.id); }
    }
  }
}
