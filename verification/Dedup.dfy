/** One context per pipe: the sorted deduplication of a publish against the quadratic one. */
module Dedup {
  import opened Vectors
  import opened Entries
  import opened Nodes

  type Client = Entry<Ctxt>

  function Flatten(v: seq<seq<Client>>): seq<Client> {
    if v == [] then [] else Flatten(v[..|v| - 1]) + v[|v| - 1]
  }

  function Ctxts(s: seq<Client>): (r: seq<Ctxt>)
    ensures |r| == |s| && forall i :: 0 <= i < |s| ==> r[i] == s[i].val
  {
    seq(|s|, i requires 0 <= i < |s| => s[i].val)
  }

  /** The records that are the first with their id, in order. */
  function FirstSeen(s: seq<Client>): seq<Client> {
    if s == [] then []
    else
      var p, e := s[..|s| - 1], s[|s| - 1];
      if HasId(p, e.id) then FirstSeen(p) else FirstSeen(p) + [e]
  }

  /** As written, an id below the first one of all is never recorded, so each of its records passes. */
  function Passing(s: seq<Client>): seq<Client> {
    if s == [] then []
    else
      var p, e := s[..|s| - 1], s[|s| - 1];
      if HasId(p, e.id) && e.id >= s[0].id then Passing(p) else Passing(p) + [e]
  }

  /** Some id below the first one occurs twice. */
  predicate LowRepeat(s: seq<Client>) {
    exists i, j :: 0 <= i < j < |s| && s[i].id == s[j].id < s[0].id
  }

  lemma {:induction false} FirstSeenExact(s: seq<Client>)
    ensures forall i, j :: 0 <= i < j < |FirstSeen(s)| ==> FirstSeen(s)[i].id != FirstSeen(s)[j].id
    ensures forall id: Id :: HasId(s, id) <==> HasId(FirstSeen(s), id)
    ensures forall e :: e in FirstSeen(s) ==> e in s
  {
    if s != [] {
      var p, e := s[..|s| - 1], s[|s| - 1];
      FirstSeenExact(p);
      assert s == p + [e];
      var r := FirstSeen(s);
      forall id: Id ensures HasId(s, id) <==> HasId(r, id) {
        if i :| 0 <= i < |s| && s[i].id == id {
          if i < |p| {
            assert p[i].id == id && HasId(FirstSeen(p), id);
            var j :| 0 <= j < |FirstSeen(p)| && FirstSeen(p)[j].id == id;
            assert r[j].id == id;
          }
          else if HasId(p, id) { var j :| 0 <= j < |FirstSeen(p)| && FirstSeen(p)[j].id == id; assert r[j].id == id; }
          else { assert r[|r| - 1].id == id; }
        }
        if i :| 0 <= i < |r| && r[i].id == id { assert r[i] in s; }
      }
    }
  }

  /** Nothing is lost as written: every first record passes, in the same order. */
  lemma {:induction false} PassingKeepsAll(s: seq<Client>)
    ensures forall id: Id :: HasId(s, id) <==> HasId(Passing(s), id)
    ensures forall e :: e in Passing(s) ==> e in s
  {
    if s != [] {
      var p, e := s[..|s| - 1], s[|s| - 1];
      PassingKeepsAll(p);
      assert s == p + [e];
      var r := Passing(s);
      forall id: Id ensures HasId(s, id) <==> HasId(r, id) {
        if i :| 0 <= i < |s| && s[i].id == id {
          if HasId(p, id) { var j :| 0 <= j < |Passing(p)| && Passing(p)[j].id == id; assert r[j].id == id; }
          else {
            assert forall k :: 0 <= k < |p| ==> p[k].id != id; assert r[|r| - 1].id == id; }
        }
        if i :| 0 <= i < |r| && r[i].id == id { assert r[i] in s; }
      }
    }
  }

  lemma {:induction false} PassingLength(s: seq<Client>)
    ensures |FirstSeen(s)| <= |Passing(s)|
  {
    if s != [] { PassingLength(s[..|s| - 1]); }
  }

  lemma LowRepeatStep(p: seq<Client>, e: Client)
    requires p != []
    ensures LowRepeat(p + [e]) <==> LowRepeat(p) || (HasId(p, e.id) && e.id < p[0].id)
  {
    var s := p + [e];
    if i, j :| 0 <= i < j < |s| && s[i].id == s[j].id < s[0].id {
      if j < |p| { assert p[i].id == p[j].id < p[0].id; } else { assert p[i].id == e.id; }
    }
    if i, j :| 0 <= i < j < |p| && p[i].id == p[j].id < p[0].id {
      assert s[i].id == s[j].id < s[0].id;
    }
    if HasId(p, e.id) && e.id < p[0].id {
      var i :| 0 <= i < |p| && p[i].id == e.id;
      assert s[i].id == s[|p|].id < s[0].id;
    }
  }

  /** Exactly when the sorted deduplication agrees with the quadratic one. */
  lemma {:induction false} PassingExactIff(s: seq<Client>)
    ensures Passing(s) == FirstSeen(s) <==> !LowRepeat(s)
  {
    if |s| > 1 {
      hide LowRepeat;
      var p, e := s[..|s| - 1], s[|s| - 1];
      assert s == p + [e];
      PassingExactIff(p);
      PassingLength(p);
      LowRepeatStep(p, e);
      if LowRepeat(p) { PassingApart(p, e, s); }
    }
  }

  lemma PassingApart(p: seq<Client>, e: Client, s: seq<Client>)
    requires s == p + [e] && p != [] && Passing(p) != FirstSeen(p) && |FirstSeen(p)| <= |Passing(p)|
    ensures Passing(s) != FirstSeen(s)
  {
    assert s[..|s| - 1] == p;
    if HasId(p, e.id) && e.id < s[0].id {
      assert |Passing(s)| == |Passing(p)| + 1 > |FirstSeen(s)|;
    } else if !HasId(p, e.id) {
      assert Passing(s)[..|Passing(p)|] == Passing(p);
      assert FirstSeen(s)[..|FirstSeen(p)|] == FirstSeen(p);
    }
  }

  ghost predicate OncePerId(s: seq<Client>) {
    forall i, j :: 0 <= i < j < |s| ==> s[i].id != s[j].id
  }

  /** Exactly when, as written, no pipe is served twice. */
  lemma {:induction false} PassingOnceIff(s: seq<Client>)
    ensures OncePerId(Passing(s)) <==> !LowRepeat(s)
  {
    PassingExactIff(s);
    FirstSeenExact(s);
    if LowRepeat(s) {
      var p, e := s[..|s| - 1], s[|s| - 1];
      assert s == p + [e];
      LowRepeatStep(p, e);
      PassingOnceIff(p);
      var r := Passing(p);
      if LowRepeat(p) {
        var i, j :| 0 <= i < j < |r| && r[i].id == r[j].id;
        assert Passing(s)[i].id == Passing(s)[j].id;
      } else {
        PassingKeepsAll(p);
        var i :| 0 <= i < |r| && r[i].id == e.id;
        assert Passing(s) == r + [e];
        assert Passing(s)[i].id == Passing(s)[|r|].id;
      }
    }
  }

  /** The ids recorded so far: everything seen or, as written, only what is not below the first id. */
  ghost predicate Recorded(ids: seq<Client>, s: seq<Client>, append: bool) {
    forall id: Id :: HasId(ids, id) <==> HasId(s, id) && (append || id >= s[0].id)
  }

  /** One round of `iterate_client`. `append` says whether an id that belongs last is appended. */
  method Admit(ghost lo: nat, ids: seq<Client>, c: Client, append: bool, ghost s: seq<Client>)
    returns (ids': seq<Client>, fresh': bool)
    requires SortedIn(lo, ids) && InWindow(lo, c.id) && Recorded(ids, s, append) && (s == [] <==> ids == [])
    ensures SortedIn(lo, ids') && Recorded(ids', s + [c], append) && ids' != []
    ensures fresh' <==> !(HasId(s, c.id) && (append || c.id >= (s + [c])[0].id))
  {
    hide HasId, Recorded;
    var found, index := FindEntry(lo, ids, c.id);
    ids', fresh' := ids, !found;
    if found {
      RecordKnown(ids, s, c, append);
    } else if ids == [] || (append && index == |ids|) {
      ids' := ids + [c];
      HasIdSnoc(ids, c);
      RecordNew(ids, s, c, append, ids');
    } else {
      ids' := VecInsert(ids, index, c);
      if index < |ids| {
        HasIdMiddle(ids, index, c);
        IdAt(ids, index);
        RecordNew(ids, s, c, append, ids');
      } else {
        RecordNone(ids, s, c);
      }
    }
  }

  lemma IdAt(ids: seq<Client>, i: nat)
    requires i < |ids|
    ensures HasId(ids, ids[i].id)
  {
  }

  lemma RecordKnown(ids: seq<Client>, s: seq<Client>, c: Client, append: bool)
    requires Recorded(ids, s, append) && HasId(ids, c.id)
    ensures Recorded(ids, s + [c], append)
    ensures HasId(s, c.id) && (append || c.id >= (s + [c])[0].id)
  {
    HasIdSnoc(s, c);
  }

  lemma RecordNew(ids: seq<Client>, s: seq<Client>, c: Client, append: bool, ids': seq<Client>)
    requires Recorded(ids, s, append) && !HasId(ids, c.id) && (s == [] <==> ids == [])
    requires forall id: Id :: HasId(ids', id) <==> HasId(ids, id) || id == c.id
    requires append || s == [] || exists x: Id :: HasId(ids, x) && x < c.id
    ensures Recorded(ids', s + [c], append)
    ensures !(HasId(s, c.id) && (append || c.id >= (s + [c])[0].id))
  {
    HasIdSnoc(s, c);
    if s != [] { assert (s + [c])[0] == s[0]; }
  }

  lemma RecordNone(ids: seq<Client>, s: seq<Client>, c: Client)
    requires Recorded(ids, s, false) && s != [] && !HasId(ids, c.id)
    requires forall i :: 0 <= i < |ids| ==> ids[i].id > c.id
    ensures Recorded(ids, s + [c], false)
    ensures !(HasId(s, c.id) && c.id >= (s + [c])[0].id)
  {
    HasIdSnoc(s, c);
    assert (s + [c])[0] == s[0];
    assert HasId(s, s[0].id);
    var i :| 0 <= i < |ids| && ids[i].id == s[0].id;
  }

  lemma HasIdSnoc(s: seq<Client>, c: Client)
    ensures forall id: Id :: HasId(s + [c], id) <==> HasId(s, id) || id == c.id
  {
    var t := s + [c];
    assert t[|s|] == c;
    forall id: Id | HasId(s, id) ensures HasId(t, id) {
      var i :| 0 <= i < |s| && s[i].id == id;
      assert t[i].id == id;
    }
  }

  lemma HasIdMiddle(s: seq<Client>, i: nat, c: Client)
    requires i <= |s|
    ensures forall id: Id :: HasId(s[..i] + [c] + s[i..], id) <==> HasId(s, id) || id == c.id
  {
    var t := s[..i] + [c] + s[i..];
    assert t[i] == c;
    forall id: Id | HasId(s, id) ensures HasId(t, id) {
      var j :| 0 <= j < |s| && s[j].id == id;
      assert t[if j < i then j else j + 1].id == id;
    }
  }

  /** `iterate_client`, over the vectors a publish has gathered. */
  method IterateClient(ghost lo: nat, v: seq<seq<Client>>, append: bool) returns (ctxts: seq<Ctxt>)
    requires forall i :: 0 <= i < |v| ==> forall j :: 0 <= j < |v[i]| ==> InWindow(lo, v[i][j].id)
    ensures ctxts == Ctxts(if append then FirstSeen(Flatten(v)) else Passing(Flatten(v)))
  {
    hide HasId, Recorded, SortedIn, Passing, FirstSeen, InWindow;
    var ids: seq<Client> := [];
    RecordedStart(lo, append);
    ctxts := [];
    ghost var s: seq<Client> := [];
    for i := 0 to |v|
      invariant SortedIn(lo, ids) && Recorded(ids, s, append) && (s == [] <==> ids == [])
      invariant s == Flatten(v[..i])
      invariant ctxts == Ctxts(Survivors(s, append))
    {
      assert v[..i + 1][..i] == v[..i];
      for j := 0 to |v[i]|
        invariant SortedIn(lo, ids) && Recorded(ids, s, append) && (s == [] <==> ids == [])
        invariant s == Flatten(v[..i]) + v[i][..j]
        invariant ctxts == Ctxts(Survivors(s, append))
      {
        var c := v[i][j];
        var isNew;
        ids, isNew := Admit(lo, ids, c, append, s);
        SurvivorsStep(s, c, append);
        if isNew { ctxts := ctxts + [c.val]; }
        assert v[i][..j + 1] == v[i][..j] + [c];
        s := s + [c];
      }
      assert v[i][..|v[i]|] == v[i];
    }
    assert v[..|v|] == v;
  }

  ghost function Survivors(s: seq<Client>, append: bool): seq<Client> {
    if append then FirstSeen(s) else Passing(s)
  }

  /** The record at `i` is served: its id is new or, as written, below the first one. */
  predicate Served(s: seq<Client>, i: nat, append: bool)
    requires i < |s|
  {
    !HasId(s[..i], s[i].id) || (!append && s[i].id < s[0].id)
  }

  lemma ServedBefore(p: seq<Client>, e: Client, i: nat, append: bool)
    requires i < |p|
    ensures Served(p + [e], i, append) <==> Served(p, i, append)
  {
    hide HasId;
    assert (p + [e])[..i] == p[..i];
  }

  /** Those served, and no others, survive, in the order in which they were gathered. */
  lemma {:induction false} SurvivorsAre(s: seq<Client>, append: bool) returns (at: seq<nat>)
    ensures |at| == |Survivors(s, append)| && forall k :: 0 <= k < |at| ==> at[k] < |s|
    ensures forall k :: 0 <= k < |at| ==> Survivors(s, append)[k] == s[at[k]]
    ensures forall j, k :: 0 <= j < k < |at| ==> at[j] < at[k]
    ensures forall i :: 0 <= i < |s| ==> (i in at <==> Served(s, i, append))
  {
    at := [];
    if s != [] {
      var n := |s| - 1;
      var p, e := s[..n], s[n];
      var before := SurvivorsAre(p, append);
      assert s == p + [e];
      hide Survivors, HasId;
      SurvivorsStep(p, e, append);
      at := if Served(s, n, append) then before + [n] else before;
      forall i | 0 <= i < n ensures i in at <==> Served(s, i, append) { ServedBefore(p, e, i, append); }
    }
  }

  lemma SurvivorsStep(s: seq<Client>, c: Client, append: bool)
    ensures Survivors(s + [c], append) ==
            if HasId(s, c.id) && (append || c.id >= (s + [c])[0].id) then Survivors(s, append)
            else Survivors(s, append) + [c]
  {
    assert (s + [c])[..|s|] == s;
  }

  method Linear(ids: seq<Id>, id: Id) returns (equal: bool)
    ensures equal <==> id in ids
  {
    equal := false;
    var k := 0;
    while k < |ids| && !equal
      invariant 0 <= k <= |ids| && equal == (id in ids[..k])
    {
      equal := ids[k] == id;
      k := k + 1;
    }
  }

  /** `iterate_client_old`, the quadratic form. */
  method IterateClientOld(v: seq<seq<Client>>) returns (ctxts: seq<Ctxt>)
    ensures ctxts == Ctxts(FirstSeen(Flatten(v)))
  {
    hide HasId, FirstSeen, Noted;
    var ids: seq<Id> := [];
    NoIds();
    ctxts := [];
    ghost var s: seq<Client> := [];
    for i := 0 to |v|
      invariant s == Flatten(v[..i]) && Noted(ids, s)
      invariant ctxts == Ctxts(Survivors(s, true))
    {
      assert v[..i + 1][..i] == v[..i];
      for j := 0 to |v[i]|
        invariant s == Flatten(v[..i]) + v[i][..j] && Noted(ids, s)
        invariant ctxts == Ctxts(Survivors(s, true))
      {
        var c := v[i][j];
        var equal := Linear(ids, c.id);
        SurvivorsStep(s, c, true);
        NotedStep(ids, s, c);
        if !equal {
          ctxts := ctxts + [c.val];
          ids := ids + [c.id];
        }
        assert v[i][..j + 1] == v[i][..j] + [c];
        s := s + [c];
      }
      assert v[i][..|v[i]|] == v[i];
    }
    assert v[..|v|] == v;
  }

  lemma RecordedStart(lo: nat, append: bool)
    ensures SortedIn<Ctxt>(lo, []) && Recorded([], [], append) && Survivors([], append) == []
  {
  }

  ghost predicate Noted(ids: seq<Id>, s: seq<Client>) { forall id: Id :: id in ids <==> HasId(s, id) }

  lemma NotedStep(ids: seq<Id>, s: seq<Client>, c: Client)
    requires Noted(ids, s)
    ensures c.id in ids <==> HasId(s, c.id)
    ensures Noted(if c.id in ids then ids else ids + [c.id], s + [c])
  {
    hide HasId;
    HasIdSnoc(s, c);
  }

  lemma NoIds()
    ensures Noted([], []) && Survivors([], true) == []
  {
  }
}
