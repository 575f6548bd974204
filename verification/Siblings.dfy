/** The children of a JSON item: a list linked by `next`, whose first element's `prev` is the last one. */
module Siblings {
  import opened Vectors

  class Item {
    var next: Item?
    var prev: Item?
    var child: Item?

    constructor ()
      ensures next == null && prev == null && child == null
    {
      next, prev, child := null, null, null;
    }
  }

  ghost predicate Distinct(kids: seq<Item>) { forall i, j :: 0 <= i < j < |kids| ==> kids[i] != kids[j] }

  /** `kids` are the children of `parent`: `next` and `prev` are inverse, and the head's `prev` is the tail. */
  ghost predicate Children(parent: Item, kids: seq<Item>) reads parent, kids {
    && parent !in kids && Distinct(kids)
    && (kids == [] ==> parent.child == null)
    && (kids != [] ==> parent.child == kids[0] && kids[0].prev == kids[|kids| - 1] && kids[|kids| - 1].next == null)
    && (forall i :: 0 <= i < |kids| - 1 ==> kids[i].next == kids[i + 1])
    && (forall i :: 0 < i < |kids| ==> kids[i].prev == kids[i - 1])
  }

  /** The pointers determine the children. */
  lemma {:induction false} ChildrenUnique(parent: Item, a: seq<Item>, b: seq<Item>)
    requires Children(parent, a) && Children(parent, b)
    ensures a == b
  {
    SamePrefix(parent, a, b, if |a| < |b| then |a| else |b|);
  }

  lemma {:induction false} SamePrefix(parent: Item, a: seq<Item>, b: seq<Item>, k: nat)
    requires Children(parent, a) && Children(parent, b) && k <= |a| && k <= |b|
    ensures a[..k] == b[..k]
  {
    if k > 0 {
      SamePrefix(parent, a, b, k - 1);
      if k > 1 {
        assert a[k - 2] == a[..k - 1][k - 2] == b[..k - 1][k - 2] == b[k - 2];
        assert a[k - 1] == a[k - 2].next && b[k - 1] == b[k - 2].next;
      }
      assert a[..k] == a[..k - 1] + [a[k - 1]] && b[..k] == b[..k - 1] + [b[k - 1]];
    }
  }

  lemma Neighbours(parent: Item, kids: seq<Item>, i: nat)
    requires Children(parent, kids) && i < |kids|
    ensures kids[i] == parent.child <==> i == 0
    ensures kids[i].prev == if i == 0 then kids[|kids| - 1] else kids[i - 1]
    ensures kids[i].next == if i + 1 < |kids| then kids[i + 1] else null
  {
  }

  lemma Erased(kids: seq<Item>, i: nat)
    requires i < |kids| && Distinct(kids)
    ensures var r := VecErase(kids, i);
            |r| == |kids| - 1 && Distinct(r) && kids[i] !in r &&
            forall j :: 0 <= j < |r| ==> r[j] == if j < i then kids[j] else kids[j + 1]
  {
  }

  lemma Placed(kids: seq<Item>, i: nat, x: Item)
    requires i < |kids| && Distinct(kids) && x !in kids
    ensures var r := VecPlace(kids, i, x);
            |r| == |kids| + 1 && Distinct(r) &&
            forall j :: 0 <= j < |r| ==> r[j] == if j < i then kids[j] else if j == i then x else kids[j - 1]
  {
    var r := VecPlace(kids, i, x);
    assert forall j :: 0 <= j < |r| ==> r[j] == if j < i then kids[j] else if j == i then x else kids[j - 1];
    hide VecPlace;
    forall j, k | 0 <= j < k < |r| ensures r[j] != r[k] {
      if j == i || k == i { assert kids[if j == i then k - 1 else j] in kids; }
    }
  }

  /** The items have the children they had. */
  twostate predicate SameContents(items: seq<Item>) reads items { forall k :: k in items ==> k.child == old(k.child) }

  /** The item stands where it stood in a list of its own. */
  twostate predicate SamePlace(item: Item?) reads item {
    item != null ==> item.next == old(item.next) && item.prev == old(item.prev)
  }

  /** `get_array_item`. */
  method GetArrayItem(list: Item?, index: nat, ghost kids: seq<Item>) returns (r: Item?)
    requires list != null ==> Children(list, kids)
    ensures r == if list != null && index < |kids| then kids[index] else null
  {
    if list == null {
      return null;
    }
    var k := index;
    r := list.child;
    while r != null && k > 0
      invariant 0 <= k <= index
      invariant r == if index - k < |kids| then kids[index - k] else null
      decreases k
    {
      r := r.next;
      k := k - 1;
    }
  }

  /**
   * `add_item_to_array`. The list stays one if the new item does not point on, or if it is the first:
   * only then is its `next` cleared.
   */
  method AddItemToArray(list: Item?, item: Item?, ghost kids: seq<Item>) returns (ok: bool)
    requires list != null ==> Children(list, kids) && item !in kids
    modifies if list != null then {list} else {}, if item != null then {item} else {}, kids
    ensures ok <==> list != null && item != null && list != item
    ensures !ok ==>
      (list != null ==> unchanged(list)) && (item != null ==> unchanged(item)) && forall k :: k in kids ==> unchanged(k)
    ensures ok ==> (Children(list, kids + [item]) <==> kids == [] || old(item.next) == null)
    ensures ok ==> item.prev == (if kids == [] then item else kids[|kids| - 1])
    ensures ok ==> item.next == if kids == [] then null else old(item.next)
    ensures SameContents(kids) && (ok ==> item.child == old(item.child) && SamePlace(list))
  {
    if item == null || list == null || list == item {
      return false;
    }
    var child := list.child;
    if child == null {
      list.child := item;
      item.prev := item;
      item.next := null;
    } else if child.prev != null {
      child.prev.next := item;
      item.prev := child.prev;
      list.child.prev := item;
    }
    return true;
  }

  /** A list appended to another one is appended with its contents. */
  method AddList(list: Item, item: Item, ghost kids: seq<Item>, ghost inner: seq<Item>)
    requires Children(list, kids) && Children(item, inner) && list != item && item !in kids && item.next == null
    requires list !in inner && forall k :: k in kids ==> k !in inner
    modifies list, item, kids
    ensures Children(list, kids + [item]) && Children(item, inner)
    ensures SameContents(kids) && forall k :: k in inner ==> unchanged(k)
  {
    assert forall k :: k in inner ==> k !in kids && k != list && k != item;
    var ok := AddItemToArray(list, item, kids);
    forall i | 0 <= i < |inner|
      ensures inner[i].next == old(inner[i].next) && inner[i].prev == old(inner[i].prev)
    {
      assert inner[i] in inner;
    }
  }

  /** `cJSON_DetachItemViaPointer`. */
  method DetachItemViaPointer(parent: Item?, item: Item?, ghost kids: seq<Item>, ghost i: nat) returns (r: Item?)
    requires parent != null && item != null ==> Children(parent, kids) && i < |kids| && kids[i] == item
    modifies if parent != null then {parent} else {}, kids
    ensures parent == null || item == null ==>
      r == null && (parent != null ==> unchanged(parent)) && forall k :: k in kids ==> unchanged(k)
    ensures parent != null && item != null ==>
      && r == item && item.prev == null && item.next == null
      && Children(parent, VecErase(kids, i))
    ensures SameContents(kids) && SamePlace(parent)
  {
    if parent == null || item == null {
      return null;
    }
    hide VecErase;
    Neighbours(parent, kids, i);
    Erased(kids, i);
    if item != parent.child {
      item.prev.next := item.next;
    }
    if item.next != null {
      item.next.prev := item.prev;
    }
    if item == parent.child {
      parent.child := item.next;
    } else if item.next == null {
      parent.child.prev := item.prev;
    }
    item.prev := null;
    item.next := null;
    return item;
  }

  /** `cJSON_InsertItemInArray`: before the item at `which`, where the new item is used unchecked, or at the end. */
  method InsertItemInArray(list: Item?, which: int, newitem: Item?, ghost kids: seq<Item>) returns (ok: bool)
    requires list != null ==> Children(list, kids) && newitem !in kids
    requires list != null && 0 <= which < |kids| ==> newitem != null && newitem != list
    modifies if list != null then {list} else {}, if newitem != null then {newitem} else {}, kids
    ensures ok <==> which >= 0 && list != null && newitem != null && newitem != list
    ensures !ok ==>
      (list != null ==> unchanged(list)) && (newitem != null ==> unchanged(newitem)) &&
      forall k :: k in kids ==> unchanged(k)
    ensures ok && which < |kids| ==> Children(list, VecPlace(kids, which, newitem as Item))
    ensures ok && which >= |kids| ==> (Children(list, kids + [newitem]) <==> kids == [] || old(newitem.next) == null)
    ensures SameContents(kids) && (ok ==> newitem.child == old(newitem.child) && SamePlace(list))
  {
    if which < 0 {
      return false;
    }
    var after := GetArrayItem(list, which, kids);
    if after == null {
      ok := AddItemToArray(list, newitem, kids);
      return;
    }
    LinkBefore(list, which, newitem, after, kids);
    return true;
  }

  method LinkBefore(list: Item, ghost i: nat, newitem: Item, after: Item, ghost kids: seq<Item>)
    requires Children(list, kids) && newitem !in kids && newitem != list && i < |kids| && kids[i] == after
    modifies list, newitem, kids
    ensures Children(list, VecPlace(kids, i, newitem))
    ensures SameContents(kids) && newitem.child == old(newitem.child) && SamePlace(list)
  {
    Neighbours(list, kids, i);
    AllNeighbours(list, kids);
    assert Distinct(kids) && list !in kids;
    assert i > 0 ==> kids[i - 1] in kids;
    hide Children, VecPlace, SameContents;
    newitem.next := after;
    newitem.prev := after.prev;
    after.prev := newitem;
    if after == list.child {
      list.child := newitem;
    } else {
      newitem.prev.next := newitem;
    }
    Relinked(list, newitem, kids, i);
    NoChildSet(kids);
  }

  lemma Relinked(list: Item, x: Item, kids: seq<Item>, i: nat)
    requires i < |kids| && Distinct(kids) && list !in kids && x !in kids && x != list
    requires x.next == kids[i] && kids[i].prev == x && x.prev == kids[if i == 0 then |kids| - 1 else i - 1]
    requires i == 0 ==> list.child == x
    requires i > 0 ==> list.child == kids[0] && kids[i - 1].next == x && kids[0].prev == kids[|kids| - 1]
    requires kids[|kids| - 1].next == null
    requires forall j :: 0 < j < |kids| && j != i ==> kids[j].prev == kids[j - 1]
    requires forall j :: 0 <= j < |kids| - 1 && j + 1 != i ==> kids[j].next == kids[j + 1]
    ensures Children(list, VecPlace(kids, i, x))
  {
    Placed(kids, i, x);
    var r := VecPlace(kids, i, x);
    hide VecPlace;
    forall j | 0 <= j < |r| - 1 ensures r[j].next == r[j + 1] {}
    forall j | 0 < j < |r| ensures r[j].prev == r[j - 1] {}
  }

  twostate lemma NoChildSet(kids: seq<Item>)
    requires forall k :: k in kids ==> k.child == old(k.child)
    ensures SameContents(kids)
  {
  }

  /** `cJSON_ReplaceItemViaPointer`, up to freeing the old item. */
  method ReplaceItemViaPointer(parent: Item?, item: Item?, replacement: Item?, ghost kids: seq<Item>, ghost i: nat)
    returns (ok: bool)
    requires parent != null && item != null && replacement != null ==>
      && Children(parent, kids) && i < |kids| && kids[i] == item
      && replacement != parent && (replacement in kids ==> replacement == item)
    modifies if parent != null then {parent} else {}, if replacement != null then {replacement} else {}, kids
    ensures ok <==> parent != null && item != null && replacement != null
    ensures ok ==> Children(parent, kids[i := replacement])
    ensures ok && replacement != item ==> item.next == null && item.prev == null
    ensures !ok ==>
      && (parent != null ==> unchanged(parent)) && (replacement != null ==> unchanged(replacement))
      && forall k :: k in kids ==> unchanged(k)
    ensures SameContents(kids) && (ok ==> replacement.child == old(replacement.child) && SamePlace(parent))
  {
    if parent == null || replacement == null || item == null {
      return false;
    }
    if replacement == item {
      return true;
    }
    Neighbours(parent, kids, i);
    replacement.next := item.next;
    replacement.prev := item.prev;
    if replacement.next != null {
      replacement.next.prev := replacement;
    }
    if parent.child == item {
      if parent.child.prev == parent.child {
        replacement.prev := replacement;
      }
      parent.child := replacement;
    } else {
      if replacement.prev != null {
        replacement.prev.next := replacement;
      }
      if replacement.next == null {
        parent.child.prev := replacement;
      }
    }
    item.next := null;
    item.prev := null;
    return true;
  }

  /** Detaching what was inserted leaves every pointer as it was. */
  method InsertThenDetach(list: Item, which: nat, newitem: Item, ghost kids: seq<Item>)
    requires Children(list, kids) && newitem !in kids && newitem != list && which < |kids|
    modifies list, newitem, kids
    ensures Children(list, kids) && newitem.next == null && newitem.prev == null
    ensures list.child == old(list.child) && SamePlace(list)
    ensures forall k :: k in kids ==> k.next == old(k.next) && k.prev == old(k.prev)
    ensures SameContents(kids) && newitem.child == old(newitem.child)
  {
    hide VecPlace, VecErase;
    ghost var placed := VecPlace(kids, which, newitem);
    Placed(kids, which, newitem);
    PlacedIn(kids, which, newitem);
    AllNeighbours(list, kids);
    var ok := InsertItemInArray(list, which, newitem, kids);
    KidsPlaced(kids, which, newitem);
    var r := DetachItemViaPointer(list, newitem, placed, which);
    assert SameContents(kids) && newitem.child == old(newitem.child);
    PlaceErase(kids, which, newitem);
    AllNeighbours(list, kids);
    forall k | k in kids ensures k.next == old(k.next) && k.prev == old(k.prev) {
      var j :| 0 <= j < |kids| && kids[j] == k;
      assert k.next == (if j + 1 < |kids| then kids[j + 1] else null) &&
        k.prev == if j == 0 then kids[|kids| - 1] else kids[j - 1];
    }
  }

  lemma PlacedIn(kids: seq<Item>, i: nat, x: Item)
    requires i < |kids|
    ensures forall j :: 0 <= j < |kids| + 1 ==> VecPlace(kids, i, x)[j] in kids || VecPlace(kids, i, x)[j] == x
  {
  }

  lemma KidsPlaced(kids: seq<Item>, i: nat, x: Item)
    requires i < |kids|
    ensures x in VecPlace(kids, i, x) && forall k :: k in kids ==> k in VecPlace(kids, i, x)
  {
    var r := VecPlace(kids, i, x);
    assert r[i] == x;
    forall k | k in kids ensures k in r {
      var j :| 0 <= j < |kids| && kids[j] == k;
      assert r[if j < i then j else j + 1] == k;
    }
  }

  lemma AllNeighbours(parent: Item, kids: seq<Item>)
    requires Children(parent, kids)
    ensures parent.child == if kids == [] then null else kids[0]
    ensures forall j :: 0 <= j < |kids| ==> kids[j].prev == if j == 0 then kids[|kids| - 1] else kids[j - 1]
    ensures forall j :: 0 <= j < |kids| ==> kids[j].next == if j + 1 < |kids| then kids[j + 1] else null
  {
    forall j | 0 <= j < |kids|
      ensures kids[j].prev == if j == 0 then kids[|kids| - 1] else kids[j - 1]
      ensures kids[j].next == if j + 1 < |kids| then kids[j + 1] else null
    {
      Neighbours(parent, kids, j);
    }
  }
}
