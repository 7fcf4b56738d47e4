/**
 The doubly linked lists of children: `next` ends in null, `prev` runs back, and the `prev` of the
 first child is the last one.  Every edit is proved to be the sequence operation it stands for.
 */
module ItemList {
  import opened Bytes

  datatype Kind = KindNull | KindFalse | KindTrue | KindNumber | KindString | KindArray | KindObject

  /** `cJSON`: the links, and what the item itself says. */
  class Item {
    var next: Item?
    var prev: Item?
    var child: Item?
    var kind: Kind
    var number: real
    var text: seq<byte>
    var name: seq<byte>

    /** `cJSON_New_Item`. */
    constructor New()
      ensures next == null && prev == null && child == null && name == []
    {
      next, prev, child := null, null, null;
      kind, number, text, name := KindNull, 0.0, [], [];
    }

    /** `cJSON_New_Item`, with the values of the item that is duplicated. */
    constructor (kind: Kind, number: real, text: seq<byte>, name: seq<byte>)
      ensures next == null && prev == null && child == null
      ensures this.kind == kind && this.number == number && this.text == text && this.name == name
    {
      next, prev, child := null, null, null;
      this.kind, this.number, this.text, this.name := kind, number, text, name;
    }
  }

  function ItemAt(items: seq<Item>, k: int): Item? { if 0 <= k < |items| then items[k] else null }

  /** The set of this item, if there is one. */
  function Only(item: Item?): set<Item> { if item == null then {} else {item} }

  /** Two places of the list hold different items. */
  ghost predicate Apart(items: seq<Item>, i: nat, j: nat)
  {
    i < j < |items| ==> items[i] != items[j]
  }

  /** The links of one item: forward, and back with the first one's leading to the last. */
  ghost predicate Link(items: seq<Item>, i: nat)
    reads items`next, items`prev
  {
    i < |items| ==>
      && items[i].next == ItemAt(items, i + 1)
      && items[i].prev == items[if i == 0 then |items| - 1 else i - 1]
  }

  ghost predicate Distinct(items: seq<Item>)
  {
    forall i: nat, j: nat :: Apart(items, i, j)
  }

  /** `items` are the children that `child` leads to, linked as the library keeps them. */
  ghost predicate List(child: Item?, items: seq<Item>)
    reads items`next, items`prev
  {
    Distinct(items) && child == ItemAt(items, 0) && forall i: nat :: Link(items, i)
  }

  /** A child list is acyclic and says by itself which items it has: two readings of it agree. */
  lemma {:induction false} ListIsDetermined(child: Item?, xs: seq<Item>, ys: seq<Item>, k: nat)
    requires List(child, xs) && List(child, ys) && k <= |xs| && k <= |ys| && xs[..k] == ys[..k]
    ensures xs == ys
    decreases |xs| - k
  {
    if k > 0 {
      assert xs[..k][k - 1] == ys[..k][k - 1];
    }
    if k > 0 {
      assert Link(xs, k - 1) && Link(ys, k - 1);
    }
    assert ItemAt(xs, k) == ItemAt(ys, k);
    if k < |xs| {
      assert xs[..k + 1] == ys[..k + 1];
      ListIsDetermined(child, xs, ys, k + 1);
    } else {
      assert xs == xs[..k] == ys;
    }
  }

  /** `cJSON_GetArraySize`: the walk along `next` ends after as many steps as there are items. */
  method GetArraySize(list: Item, ghost items: seq<Item>) returns (size: nat)
    requires List(list.child, items)
    ensures size == |items|
  {
    var child := list.child;
    size := 0;
    while child != null
      invariant size <= |items| && child == ItemAt(items, size)
      decreases |items| - size
    {
      assert Link(items, size);
      size := size + 1;
      child := child.next;
    }
  }

  /** `get_array_item`. */
  method GetArrayItem(list: Item, index: nat, ghost items: seq<Item>) returns (item: Item?)
    requires List(list.child, items)
    ensures item == ItemAt(items, index)
  {
    item := list.child;
    var left := index;
    while item != null && left > 0
      invariant 0 <= left <= index && index - left <= |items| && item == ItemAt(items, index - left)
    {
      assert Link(items, index - left);
      left := left - 1;
      item := item.next;
    }
    assert left > 0 ==> index - left == |items|;
  }

  /** `suffix_object`. */
  method SuffixObject(prev: Item, item: Item)
    modifies prev`next, item`prev
    ensures prev.next == item && item.prev == prev
  {
    prev.next := item;
    item.prev := prev;
  }

  /** `add_item_to_array`, for an item that stands in no list. */
  method AddItemToArray(list: Item, item: Item?, ghost items: seq<Item>) returns (ok: bool)
    requires List(list.child, items) && item !in items && (item != null ==> item.next == null)
    modifies list`child, Only(item)`next, Only(item)`prev, items`next, items`prev
    ensures ok <==> item != null && item != list
    ensures if ok then List(list.child, items + [item]) else List(list.child, items)
    ensures !ok && item != null ==> item.next == old(item.next)
  {
    if item == null || list == item {
      return false;
    }
    var child := list.child;
    assert Link(items, 0);
    if child == null {
      list.child := item;
      item.prev := item;
      item.next := null;
    } else if child.prev != null {
      SuffixObject(child.prev, item);
      list.child.prev := item;
    }
    forall i: nat ensures Link(items + [item], i) {
      assert old(Link(items, i)) && Apart(items, 0, i) && (items != [] ==> Apart(items, i, |items| - 1));
    }
    forall i: nat, j: nat ensures Apart(items + [item], i, j) {
      assert Apart(items, i, j);
    }
    return true;
  }

  /** `cJSON_DetachItemViaPointer`: the `k`-th item leaves the list, and keeps no link to it. */
  method DetachItem(parent: Item, item: Item, ghost items: seq<Item>, ghost k: nat)
    requires List(parent.child, items) && k < |items| && item == items[k]
    modifies parent`child, items`next, items`prev
    ensures List(parent.child, items[..k] + items[k + 1..])
    ensures item.next == null && item.prev == null
  {
    ghost var n := |items|;
    assert Link(items, k) && Link(items, 0) && Apart(items, 0, k);
    if item != parent.child {
      item.prev.next := item.next;
    }
    if item.next != null {
      item.next.prev := item.prev;
    }
    if item == parent.child {
      parent.child := item.next;
    } else if item.next == null {
      parent.child.prev := item.prev;
    }
    item.prev := null;
    item.next := null;
    ghost var rest := items[..k] + items[k + 1..];
    forall i: nat ensures Link(rest, i) {
      var at := if i < k then i else i + 1;
      assert old(Link(items, at)) && Apart(items, at, k) && Apart(items, k, at);
      if k > 0 {
        assert Apart(items, at, k - 1) && Apart(items, k - 1, at) && Apart(items, 0, at);
      }
      if k + 1 < n {
        assert Apart(items, at, k + 1) && Apart(items, k + 1, at);
      }
    }
    forall i: nat, j: nat ensures Apart(rest, i, j) {
      assert Apart(items, if i < k then i else i + 1, if j < k then j else j + 1);
    }
  }

  /** The part of `cJSON_InsertItemInArray` that links the new item in before the `k`-th. */
  method InsertBefore(list: Item, newItem: Item, after: Item, ghost items: seq<Item>, ghost k: nat)
    requires List(list.child, items) && newItem !in items && k < |items| && after == items[k]
    modifies list`child, newItem`next, newItem`prev, items`next, items`prev
    ensures List(list.child, items[..k] + [newItem] + items[k..])
  {
    assert Link(items, k) && Link(items, 0) && Apart(items, 0, k);
    newItem.next := after;
    newItem.prev := after.prev;
    after.prev := newItem;
    if after == list.child {
      list.child := newItem;
    } else {
      newItem.prev.next := newItem;
    }
    ghost var longer := items[..k] + [newItem] + items[k..];
    forall i: nat ensures Link(longer, i) {
      var at := if i <= k then i else i - 1;
      assert old(Link(items, at)) && Apart(items, at, k) && Apart(items, k, at);
      if k > 0 {
        assert Apart(items, at, k - 1) && Apart(items, k - 1, at) && Apart(items, 0, at);
      }
    }
    forall i: nat, j: nat ensures Apart(longer, i, j) {
      assert Apart(items, if i <= k then i else i - 1, if j <= k then j else j - 1);
    }
  }

  /** `cJSON_InsertItemInArray`: before the item at `which`, or at the end. */
  method InsertItem(list: Item, which: int, newItem: Item?, ghost items: seq<Item>) returns (ok: bool)
    requires List(list.child, items) && newItem !in items
    requires newItem != null && which >= |items| ==> newItem.next == null
    modifies list`child, Only(newItem)`next, Only(newItem)`prev, items`next, items`prev
    ensures ok <==> which >= 0 && newItem != null && (which < |items| || newItem != list)
    ensures ok ==> var k := if which < |items| then which else |items|;
            List(list.child, items[..k] + [newItem] + items[k..])
    ensures !ok ==> List(list.child, items) && (newItem != null ==> newItem.next == old(newItem.next))
  {
    if which < 0 || newItem == null {
      return false;
    }
    var after := GetArrayItem(list, which, items);
    if after == null {
      ok := AddItemToArray(list, newItem, items);
      assert items[..|items|] + [newItem] + items[|items|..] == items + [newItem];
      return;
    }
    assert Link(items, which);
    if after != list.child && after.prev == null {
      return false;
    }
    InsertBefore(list, newItem, after, items, which);
    return true;
  }

  /** `cJSON_ReplaceItemViaPointer`; the old item, which the library then frees, keeps no link. */
  method ReplaceItem(parent: Item, item: Item, replacement: Item?, ghost items: seq<Item>, ghost k: nat)
      returns (ok: bool)
    requires List(parent.child, items) && k < |items| && item == items[k]
    requires replacement == item || replacement !in items
    modifies parent`child, Only(replacement)`next, Only(replacement)`prev, items`next, items`prev
    ensures ok <==> replacement != null
    ensures List(parent.child, if ok then items[k := replacement] else items)
    ensures ok && replacement != item ==> item.next == null && item.prev == null
  {
    if parent.child == null || replacement == null {
      return false;
    }
    if replacement == item {
      assert items[k := item] == items;
      return true;
    }
    ghost var n := |items|;
    assert Link(items, k) && Link(items, 0) && Apart(items, 0, k);
    replacement.next := item.next;
    replacement.prev := item.prev;
    if replacement.next != null {
      replacement.next.prev := replacement;
    }
    if parent.child == item {
      if parent.child.prev == parent.child {
        replacement.prev := replacement;
      }
      parent.child := replacement;
    } else {
      if replacement.prev != null {
        replacement.prev.next := replacement;
      }
      if replacement.next == null {
        parent.child.prev := replacement;
      }
    }
    item.next := null;
    item.prev := null;
    ghost var changed := items[k := replacement];
    forall i: nat ensures Link(changed, i) {
      assert old(Link(items, i)) && Apart(items, i, k) && Apart(items, k, i);
      if k > 0 {
        assert Apart(items, i, k - 1) && Apart(items, k - 1, i) && Apart(items, 0, i);
      }
      if k + 1 < n {
        assert Apart(items, i, k + 1) && Apart(items, k + 1, i);
      }
      assert Apart(items, k, n - 1) && Apart(items, i, n - 1);
    }
    forall i: nat, j: nat ensures Apart(changed, i, j) {
      assert Apart(items, i, j);
    }
    return true;
  }

  /** `cJSON_DetachItemFromArray`. */
  method DetachItemFromArray(list: Item, which: int, ghost items: seq<Item>) returns (item: Item?)
    requires List(list.child, items)
    modifies list`child, items`next, items`prev
    ensures item == ItemAt(items, which)
    ensures List(list.child, Without(items, which)) && (item != null ==> item.next == null && item.prev == null)
  {
    if which < 0 {
      return null;
    }
    item := GetArrayItem(list, which, items);
    if item != null {
      DetachItem(list, item, items, which);
    }
  }

  /** `cJSON_ReplaceItemInArray`. */
  method ReplaceItemInArray(list: Item, which: int, newItem: Item, ghost items: seq<Item>) returns (ok: bool)
    requires List(list.child, items) && newItem !in items
    modifies list`child, newItem`next, newItem`prev, items`next, items`prev
    ensures ok <==> 0 <= which < |items|
    ensures List(list.child, if ok then items[which := newItem] else items)
    ensures ok ==> items[which].next == null && items[which].prev == null
    ensures !ok ==> newItem.next == old(newItem.next)
  {
    if which < 0 {
      return false;
    }
    var item := GetArrayItem(list, which, items);
    if item == null {
      return false;
    }
    ok := ReplaceItem(list, item, newItem, items, which);
  }

  // ---------------------------------------------------------------- sequences of edits

  function Without<T>(items: seq<T>, which: int): seq<T>
  {
    if 0 <= which < |items| then items[..which] + items[which + 1..] else items
  }

  datatype Edit<T> = Append(item: T) | Insert(which: int, item: T) | Detach(which: int) | Replace(which: int, item: T)

  function Apply<T>(items: seq<T>, edit: Edit<T>): seq<T>
  {
    match edit
    case Append(item) => items + [item]
    case Insert(which, item) =>
      if which < 0 then items
      else if which < |items| then items[..which] + [item] + items[which..]
      else items + [item]
    case Detach(which) => Without(items, which)
    case Replace(which, item) => if 0 <= which < |items| then items[which := item] else items
  }

  function ApplyAll<T>(items: seq<T>, edits: seq<Edit<T>>): seq<T>
  {
    if edits == [] then items else Apply(ApplyAll(items, edits[..|edits| - 1]), edits[|edits| - 1])
  }

  /** What is added comes from the pool and does not stand in the list at that time. */
  ghost predicate Usable(items: seq<Item>, edit: Edit<Item>, pool: set<Item>)
  {
    edit.Detach? || (edit.item in pool && edit.item !in items)
  }

  ghost predicate AllUsable(items: seq<Item>, edits: seq<Edit<Item>>, pool: set<Item>)
  {
    forall n: nat :: UsableAt(items, edits, n, pool)
  }

  ghost predicate UsableAt(items: seq<Item>, edits: seq<Edit<Item>>, n: nat, pool: set<Item>)
  {
    n < |edits| ==> Usable(ApplyAll(items, edits[..n]), edits[n], pool)
  }

  /** The list is linked, its items are of the pool, and those of the pool that are not in it lead nowhere. */
  ghost predicate Pooled(list: Item, items: seq<Item>, pool: set<Item>)
    reads list`child, pool`next, pool`prev
  {
    && (forall item :: item in items ==> item in pool) && list !in pool
    && List(list.child, items) && forall item :: item in pool && item !in items ==> item.next == null
  }

  /** An edit keeps the pool: the new list is linked, and what it took out of the old one leads nowhere. */
  lemma {:induction false} PooledAgain(list: Item, before: seq<Item>, edit: Edit<Item>, pool: set<Item>)
    requires (forall item :: item in before ==> item in pool) && list !in pool && Usable(before, edit, pool)
    requires List(list.child, Apply(before, edit))
    requires forall item :: item in pool && item !in before && item !in Apply(before, edit) ==> item.next == null
    requires (edit.Detach? || edit.Replace?) && 0 <= edit.which < |before| ==> before[edit.which].next == null
    ensures Pooled(list, Apply(before, edit), pool)
  {
    hide List;
    var after := Apply(before, edit);
    forall item | item in after ensures item in pool {
      assert item in before || (!edit.Detach? && item == edit.item);
    }
    forall item | item in before && item !in after ensures item.next == null {
      var k :| 0 <= k < |before| && before[k] == item;
      StaysIn(before, edit, k);
    }
  }

  /** An edit takes out no item but the one at its place. */
  lemma {:induction false} StaysIn(items: seq<Item>, edit: Edit<Item>, k: nat)
    requires k < |items|
    ensures items[k] in Apply(items, edit) || ((edit.Detach? || edit.Replace?) && edit.which == k)
  {
    var after := Apply(items, edit);
    if edit.Append? || (edit.Insert? && edit.which >= |items|) {
      assert after[k] == items[k];
    } else if edit.Insert? && edit.which >= 0 {
      assert after[if k < edit.which then k else k + 1] == items[k];
    } else if edit.Detach? && 0 <= edit.which < |items| && edit.which != k {
      assert after[if k < edit.which then k else k - 1] == items[k];
    } else if edit.Replace? && 0 <= edit.which < |items| && edit.which != k {
      assert after[k] == items[k];
    }
  }

  /** One edit. */
  method EditOnce(list: Item, edit: Edit<Item>, ghost items: seq<Item>, ghost pool: set<Item>)
    requires Pooled(list, items, pool) && Usable(items, edit, pool)
    modifies list`child, pool`next, pool`prev
    ensures Pooled(list, Apply(items, edit), pool)
  {
    hide List;
    if edit.Append? {
      var _ := AddItemToArray(list, edit.item, items);
    } else if edit.Insert? {
      var _ := InsertItem(list, edit.which, edit.item, items);
      assert items[..|items|] + [edit.item] + items[|items|..] == items + [edit.item];
      assert edit.which >= 0 ==> edit.item in Apply(items, edit);
    } else if edit.Detach? {
      var _ := DetachItemFromArray(list, edit.which, items);
    } else {
      var _ := ReplaceItemInArray(list, edit.which, edit.item, items);
      assert 0 <= edit.which < |items| ==> Apply(items, edit)[edit.which] == edit.item;
    }
    PooledAgain(list, items, edit, pool);
  }

  /** Any sequence of edits is the sequence operations it stands for, one after the other. */
  method EditAll(list: Item, edits: seq<Edit<Item>>, ghost items: seq<Item>, ghost pool: set<Item>)
    requires Pooled(list, items, pool) && AllUsable(items, edits, pool)
    modifies list`child, pool`next, pool`prev
    ensures Pooled(list, ApplyAll(items, edits), pool)
  {
    assert edits[..0] == [];
    for n := 0 to |edits|
      invariant Pooled(list, ApplyAll(items, edits[..n]), pool)
    {
      assert UsableAt(items, edits, n, pool);
      assert edits[..n + 1][..n] == edits[..n];
      EditOnce(list, edits[n], ApplyAll(items, edits[..n]), pool);
    }
    assert edits[..|edits|] == edits;
  }
}
