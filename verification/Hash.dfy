/** The topic hash tables (`hash.cc`): topics by pipe, and by client while it is away. */
module Hash {
  import opened Entries
  import opened Options
  import opened Sessions

  /** Only the entry of `id` differs. */
  ghost predicate OnlyEntry(m: TopicHash, m': TopicHash, id: Id) { m' - {id} == m - {id} }

  /** A table is determined by one entry, there or not, and by the others. */
  lemma EntryIs(m: TopicHash, m': TopicHash, id: Id)
    requires OnlyEntry(m, m', id)
    ensures m' == if id in m' then m[id := m'[id]] else m - {id}
    ensures forall x: Id :: x != id ==> Get(m', x) == Get(m, x)
  {
    forall x | x != id
      ensures x in m' <==> x in m
      ensures x in m ==> m'[x] == m[x]
    {
      assert x in m' <==> x in m' - {id};
      assert x in m <==> x in m - {id};
      assert x in m ==> (m' - {id})[x] == (m - {id})[x];
    }
  }

  class TopicTables {
    var topics: TopicHash
    var cached: TopicHash

    constructor ()
      ensures topics == map[] && cached == map[]
    {
      topics, cached := map[], map[];
    }

    /** `add_topic`: a new topic is linked in after the first one. */
    method AddTopic(id: Id, f: string)
      modifies this`topics
      ensures OnlyEntry(old(topics), topics, id) && id in topics && topics[id] == Added(Get(old(topics), id), f)
      ensures f !in Get(old(topics), id) ==> Without(Get(topics, id), f) == Get(old(topics), id)
    {
      AddedWithout(Get(topics, id), f);
      var tq := Get(topics, id);
      if tq == [] {
        topics := topics[id := [f]];
      } else {
        topics := topics[id := [tq[0], f] + tq[1..]];
      }
    }

    /** `get_topic`: a pipe without an entry has one afterwards that lists nothing. */
    method GetTopic(id: Id) returns (tq: seq<string>)
      modifies this`topics
      ensures tq == Get(old(topics), id) && topics == Touched(old(topics), id)
    {
      if id !in topics {
        topics := topics[id := []];
      }
      tq := topics[id];
    }

    /** `check_topic`, and the duplicate scan of `sub_ctx_handle`. */
    method CheckTopic(id: Id, f: string) returns (found: bool)
      ensures found <==> f in Get(topics, id)
    {
      var tq := Get(topics, id);
      found := false;
      while tq != []
        invariant f in Get(topics, id) <==> f in tq
        decreases |tq|
      {
        if tq[0] == f { return true; }
        tq := tq[1..];
      }
    }

    /** `del_topic_one`: unlinks the first occurrence; an emptied list leaves the table, a missing one enters it. */
    method DelTopicOne(id: Id, f: string)
      modifies this`topics
      ensures OnlyEntry(old(topics), topics, id) && Get(topics, id) == Without(Get(old(topics), id), f)
      ensures id in topics <==> Get(old(topics), id) != [f]
    {
      var tt := GetTopic(id);
      if tt == [] {
        return;
      }
      if tt[0] == f && |tt| == 1 {
        topics := topics - {id};
        return;
      }
      if tt[0] == f {
        topics := topics[id := tt[1..]];
        return;
      }
      var tb: seq<string> := [];
      while tt != [] && tt[0] != f
        invariant tb + tt == Get(topics, id)
        invariant Without(Get(topics, id), f) == tb + Without(tt, f)
        invariant topics == old(topics)
        decreases |tt|
      {
        tb, tt := tb + [tt[0]], tt[1..];
      }
      if tt != [] {
        topics := topics[id := tb + tt[1..]];
      } else {
        assert tb + [] == tb;
        topics := topics[id := tb];
      }
    }

    /** `del_topic_all`. */
    method DelTopicAll(id: Id)
      modifies this`topics
      ensures OnlyEntry(old(topics), topics, id) && id !in topics
    {
      topics := topics - {id};
    }

    /** `cache_topic_all`: whatever was cached for the client before is dropped, and an entry takes its place. */
    method CacheTopicAll(pid: Id, cid: Id)
      modifies this
      ensures OnlyEntry(old(topics), topics, pid) && pid !in topics
      ensures OnlyEntry(old(cached), cached, cid) && cid in cached && cached[cid] == Get(old(topics), pid)
    {
      var tq := GetTopic(pid);
      if cid in cached {
        cached := cached - {cid};
      }
      cached := cached[cid := tq];
      topics := topics - {pid};
    }

    /** `restore_topic_all`. */
    method RestoreTopicAll(cid: Id, pid: Id)
      modifies this
      ensures OnlyEntry(old(topics), topics, pid) && pid in topics && topics[pid] == Get(old(cached), cid)
      ensures OnlyEntry(old(cached), cached, cid) && cid !in cached
    {
      var tq := Get(cached, cid);
      if pid in topics {
        DelTopicAll(pid);
      }
      topics := topics[pid := tq];
      cached := cached - {cid};
    }

    /** Deleting a topic just added leaves the table as it was, unless there was an entry that listed nothing. */
    method AddThenDelete(id: Id, f: string)
      requires f !in Get(topics, id)
      modifies this`topics
      ensures forall x: Id :: Get(topics, x) == Get(old(topics), x)
      ensures topics == old(topics) <==> (id in old(topics) ==> old(topics)[id] != [])
    {
      ghost var m := topics;
      AddTopic(id, f);
      DelTopicOne(id, f);
      EntryIs(m, topics, id);
      if m != topics { assert m == m[id := Get(m, id)] || id !in m; }
    }

    /**
     * A list cached for a client and restored to a pipe is that pipe's, in the same order, and no other
     * list changes; under the same pipe both tables are as they were if the pipe had an entry and the
     * client none.
     */
    method CacheThenRestore(pid: Id, cid: Id, pid': Id)
      modifies this
      ensures pid' in topics && topics[pid'] == Get(old(topics), pid) &&
        (pid' != pid ==> pid !in topics) && cid !in cached
      ensures forall x: Id :: x != pid && x != pid' ==> Get(topics, x) == Get(old(topics), x)
      ensures forall x: Id :: x != cid ==> Get(cached, x) == Get(old(cached), x)
      ensures pid' == pid ==>
        (topics == old(topics) && cached == old(cached) <==> pid in old(topics) && cid !in old(cached))
    {
      ghost var t, c := topics, cached;
      CacheTopicAll(pid, cid);
      EntryIs(t, topics, pid);
      EntryIs(c, cached, cid);
      ghost var t1, c1 := topics, cached;
      RestoreTopicAll(cid, pid');
      EntryIs(t1, topics, pid');
      EntryIs(c1, cached, cid);
      assert pid' == pid ==> topics == t[pid := Get(t, pid)];
      assert cached == c - {cid};
    }
  }

  lemma AddedWithout(q: seq<string>, f: string)
    ensures f !in q ==> Without(Added(q, f), f) == q
  {
    if q != [] && f !in q {
      var r := Added(q, f);
      assert r[0] == q[0] && r[1..] == [f] + q[1..];
      assert q[0] in q && ([f] + q[1..])[1..] == q[1..];
    }
  }
}
