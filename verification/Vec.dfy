/** The result of a search that may find nothing. */
module Wrappers {
  datatype Option<+T> = None | Some(value: T)
}

/** Growable vectors (`cvector.h`) and the binary search that the tree runs on them. */
module Vectors {

  /** `cvector_insert`: shifts in at an index inside the vector; at or past the end it does nothing. */
  function VecInsert<T>(v: seq<T>, i: nat, x: T): (r: seq<T>)
    ensures v != [] && i >= |v| ==> r == v
  {
    if v == [] then [x]
    else if i < |v| then v[..i] + [x] + v[i..]
    else v
  }

  /** `cvector_erase`. */
  function VecErase<T>(v: seq<T>, i: nat): seq<T> {
    if i < |v| then v[..i] + v[i + 1..] else v
  }

  /** The idiom of the tree: append at the end, insert elsewhere. */
  function VecPlace<T>(v: seq<T>, i: nat, x: T): (r: seq<T>)
    requires i <= |v|
    ensures |r| == |v| + 1 && r[i] == x
  {
    if i == |v| then v + [x] else VecInsert(v, i, x)
  }

  lemma PlaceErase<T>(v: seq<T>, i: nat, x: T)
    requires i <= |v|
    ensures VecErase(VecPlace(v, i, x), i) == v
  {
    var r := VecPlace(v, i, x);
    assert r == v[..i] + [x] + v[i..];
    assert r[..i] == v[..i] && r[i + 1..] == v[i..];
  }

  /** The storage behind a vector: the macros shift elements in place and grow when full. */
  class CVector<T(0)> {
    var data: array<T>
    var size: nat

    ghost predicate Valid() reads this { size <= data.Length }

    ghost function Contents(): seq<T>
      reads this, data
      requires Valid()
    {
      data[..size]
    }

    constructor ()
      ensures Valid() && fresh(data) && Contents() == []
    {
      data := new T[0];
      size := 0;
    }

    method Grow(count: nat)
      requires Valid() && size <= count
      modifies this`data
      ensures Valid() && fresh(data) && data.Length == count
      ensures Contents() == old(Contents())
    {
      var d := new T[count];
      forall i | 0 <= i < size { d[i] := data[i]; }
      data := d;
    }

    method PushBack(x: T)
      requires Valid()
      modifies this, data
      ensures Valid() && (data == old(data) || fresh(data))
      ensures Contents() == old(Contents()) + [x]
    {
      if data.Length <= size { Grow(data.Length + 1); }
      data[size] := x;
      size := size + 1;
    }

    method PopBack()
      requires Valid() && size > 0
      modifies this`size
      ensures Valid() && Contents() == old(Contents())[..old(size) - 1]
    {
      size := size - 1;
    }

    method Erase(i: nat)
      requires Valid()
      modifies this`size, data
      ensures Valid() && Contents() == VecErase(old(Contents()), i)
    {
      if i < size {
        var n := size;
        size := n - 1;
        var x := i;
        while x < n - 1
          invariant i <= x <= n - 1 && size == n - 1
          invariant forall k :: 0 <= k < i ==> data[k] == old(data[k])
          invariant forall k :: i <= k < x ==> data[k] == old(data[k + 1])
          invariant forall k :: x <= k < n ==> data[k] == old(data[k])
        {
          data[x] := data[x + 1];
          x := x + 1;
        }
      }
    }

    method Insert(i: nat, value: T)
      requires Valid()
      modifies this, data
      ensures Valid() && (data == old(data) || fresh(data))
      ensures Contents() == VecInsert(old(Contents()), i, value)
    {
      if size == 0 {
        PushBack(value);
        return;
      }
      ghost var was := Contents();
      if data.Length <= size {
        Grow(if data.Length == 0 then 1 else data.Length * 2);
      }
      var n := size;
      if i < n {
        size := n + 1;
        var x := n;
        while x > i
          invariant i <= x <= n && size == n + 1 <= data.Length
          invariant data == old(data) || fresh(data)
          invariant forall k :: 0 <= k < x ==> data[k] == was[k]
          invariant forall k :: x < k <= n ==> data[k] == was[k - 1]
        {
          data[x] := data[x - 1];
          x := x - 1;
        }
        data[i] := value;
        assert Contents() == was[..i] + [value] + was[i..];
      }
    }
  }

  /** From `left` on, elements that compare below the key come first, and at most one equals it. */
  ghost predicate OrderedFor<T>(vec: seq<T>, left: nat, cmp: T -> int) {
    forall i, j :: left <= i < j < |vec| && cmp(vec[i]) >= 0 ==> cmp(vec[j]) > 0
  }

  /**
   * `binary_search`: a hit, or the true insertion point `m + add`. When nothing lies at or after
   * `left` the answer is index 0, which is why one caller tests for that case first.
   */
  method BinarySearch<T>(vec: seq<T>, left: nat, cmp: T -> int) returns (found: bool, index: nat)
    requires OrderedFor(vec, left, cmp)
    ensures found ==> left <= index < |vec| && cmp(vec[index]) == 0
    ensures !found && left < |vec| ==>
      && left <= index <= |vec|
      && (forall i :: left <= i < index ==> cmp(vec[i]) < 0)
      && (forall i :: index <= i < |vec| ==> cmp(vec[i]) > 0)
    ensures !found && left >= |vec| ==> index == 0
  {
    var l, r := left, |vec| - 1;
    var m, add := 0, 0;
    while l <= r
      invariant left <= l && r < |vec|
      invariant left < |vec| ==> l <= r + 1
      invariant forall i :: left <= i < l && i < |vec| ==> cmp(vec[i]) < 0
      invariant forall i :: r < i < |vec| && i >= left ==> cmp(vec[i]) > 0
      invariant m >= 0 && (add == 0 || add == 1)
      invariant left >= |vec| ==> m + add == 0
      invariant left < |vec| && l > r ==> m + add == l
      invariant add == 1 ==> l == m + 1
      decreases r - l + 1
    {
      m := l + (r - l) / 2;
      if cmp(vec[m]) == 0 {
        return true, m;
      }
      if cmp(vec[m]) < 0 {
        l := m + 1;
        add := 1;
      } else {
        r := m - 1;
        add := 0;
      }
    }
    return false, m + add;
  }
}

/** Vectors of records ordered by a 32-bit id: clients, sessions and session queues. */
module Entries {
  import opened Wrappers
  import opened Vectors

  const TWO31: int := 0x8000_0000
  const TWO32: int := 0x1_0000_0000

  type Id = x: int | 0 <= x < TWO32

  /** A record led by its id; `dbtree_client`, `dbtree_session` and `dbtree_session_msg` share it. */
  datatype Entry<+V> = Entry(id: Id, val: V)

  /** The id comparators: `*key - elem` in uint32 arithmetic, read back as an int. */
  function IdCmp(elem: Id, key: Id): int {
    var d := (key - elem) % TWO32;
    if d < TWO31 then d else d - TWO32
  }

  /** Exactly when the wrapped difference has the sign of the true one. */
  lemma IdCmpExact(elem: Id, key: Id)
    ensures (IdCmp(elem, key) == key - elem) <==> -TWO31 <= key - elem < TWO31
    ensures IdCmp(elem, key) == 0 <==> elem == key
  {
    var d := key - elem;
    if d >= 0 {
      assert d % TWO32 == d;
    } else {
      assert (d + TWO32) % TWO32 == d + TWO32;
      assert d % TWO32 == (d + TWO32) % TWO32;
    }
  }

  /** Beyond half the id space the comparator is cyclic, so no vector of these ids is sorted for it. */
  lemma IdCmpCyclic()
    ensures exists a: Id, b: Id, c: Id :: IdCmp(a, b) > 0 && IdCmp(b, c) > 0 && IdCmp(c, a) > 0
  {
    var a: Id, b: Id, c: Id := 0, 0x6000_0000, 0xC000_0000;
    assert IdCmp(a, b) > 0 && IdCmp(b, c) > 0 && IdCmp(c, a) > 0;
  }

  /** Ids that span less than 2^31, the range on which the comparators order. */
  predicate InWindow(lo: nat, id: Id) { lo <= id < lo + TWO31 }

  predicate Descending<V>(v: seq<Entry<V>>) {
    forall i, j :: 0 <= i < j < |v| ==> v[i].id > v[j].id
  }

  predicate SortedIn<V>(lo: nat, v: seq<Entry<V>>) {
    Descending(v) && forall i :: 0 <= i < |v| ==> InWindow(lo, v[i].id)
  }

  predicate HasId<V>(v: seq<Entry<V>>, id: Id) { exists i :: 0 <= i < |v| && v[i].id == id }

  lemma ComparatorOrders<V>(lo: nat, v: seq<Entry<V>>, id: Id)
    requires SortedIn(lo, v) && InWindow(lo, id)
    ensures OrderedFor(v, 0, (e: Entry<V>) => IdCmp(e.id, id))
    ensures forall i :: 0 <= i < |v| ==> IdCmp(v[i].id, id) == id - v[i].id
  {
    forall i | 0 <= i < |v| ensures IdCmp(v[i].id, id) == id - v[i].id {
      IdCmpExact(v[i].id, id);
    }
  }

  method FindEntry<V>(ghost lo: nat, v: seq<Entry<V>>, id: Id) returns (found: bool, index: nat)
    requires SortedIn(lo, v) && InWindow(lo, id)
    ensures found <==> HasId(v, id)
    ensures found ==> index < |v| && v[index].id == id
    ensures !found ==> index <= |v|
    ensures !found ==> forall i :: 0 <= i < |v| ==> if i < index then v[i].id > id else v[i].id < id
  {
    ComparatorOrders(lo, v, id);
    found, index := BinarySearch(v, 0, (e: Entry<V>) => IdCmp(e.id, id));
  }

  /** Places a record by id; an id already there keeps its record and the new one is dropped. */
  method InsertEntry<V>(ghost lo: nat, v: seq<Entry<V>>, e: Entry<V>) returns (r: seq<Entry<V>>)
    requires SortedIn(lo, v) && InWindow(lo, e.id)
    ensures SortedIn(lo, r)
    ensures HasId(v, e.id) ==> r == v
    ensures !HasId(v, e.id) ==> |r| == |v| + 1 && forall y :: y in r <==> y in v || y == e
    ensures HasId(r, e.id)
  {
    var found, index := FindEntry(lo, v, e.id);
    if found {
      r := v;
    } else {
      r := VecPlace(v, index, e);
      assert r == v[..index] + [e] + v[index..];
      assert r[index].id == e.id;
    }
  }

  /** Removes a record by id and hands it back. */
  method EraseEntry<V>(ghost lo: nat, v: seq<Entry<V>>, id: Id) returns (e: Option<Entry<V>>, r: seq<Entry<V>>)
    requires SortedIn(lo, v) && InWindow(lo, id)
    ensures SortedIn(lo, r)
    ensures e.Some? <==> HasId(v, id)
    ensures e.Some? ==> e.value in v && e.value.id == id && |r| == |v| - 1
    ensures e.Some? ==> forall y :: y in r <==> y in v && y.id != id
    ensures e.None? ==> r == v
  {
    var found, index := FindEntry(lo, v, id);
    if !found {
      return None, v;
    }
    e := Some(v[index]);
    r := VecErase(v, index);
    assert v == v[..index] + [v[index]] + v[index + 1..];
  }
}
