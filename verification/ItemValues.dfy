/** The JSON values that trees of items stand for. */
module ItemValues {
  import opened Bytes
  import opened JsonTree
  import opened ItemList
  import opened ItemTrees

  /** The JSON value that an item stands for. */
  function ValueOf(s: Said): Json
    decreases s, 0
  {
    match s.kind
    case KindNull => Null
    case KindFalse => False
    case KindTrue => True
    case KindNumber => Number(s.number)
    case KindString => String(s.text)
    case KindArray => Array(ItemsOf(s.kids, 0))
    case KindObject => Object(MembersOf(s.kids, 0))
  }

  function ItemsOf(kids: seq<Said>, k: nat): (r: seq<Json>)
    requires k <= |kids|
    ensures |r| == |kids| - k
    decreases kids, |kids| - k
  {
    if k == |kids| then [] else [ValueOf(kids[k])] + ItemsOf(kids, k + 1)
  }

  function MembersOf(kids: seq<Said>, k: nat): (r: seq<Member>)
    requires k <= |kids|
    ensures |r| == |kids| - k
    decreases kids, |kids| - k
  {
    if k == |kids| then [] else [Member(kids[k].name, ValueOf(kids[k]))] + MembersOf(kids, k + 1)
  }

  lemma {:induction false} ItemsOfAt(kids: seq<Said>, k: nat, i: nat)
    requires k <= i < |kids|
    ensures ItemsOf(kids, k)[i - k] == ValueOf(kids[i])
    decreases i - k
  {
    if k == i {
    } else {
      ItemsOfAt(kids, k + 1, i);
    }
  }

  lemma {:induction false} MembersOfAt(kids: seq<Said>, k: nat, i: nat)
    requires k <= i < |kids|
    ensures MembersOf(kids, k)[i - k] == Member(kids[i].name, ValueOf(kids[i]))
    decreases i - k
  {
    if k == i {
    } else {
      MembersOfAt(kids, k + 1, i);
    }
  }

  /** The value of a tree of items. */
  ghost function Value(sh: Shape): Json
    reads sh.root`kind, sh.root`number, sh.root`text, sh.root`name, Inner(sh.kids, 0)
  {
    ValueOf(Says(sh))
  }

  /** These trees stand for these values. */
  ghost predicate StandFor(kids: seq<Shape>, items: seq<Json>)
    reads Inner(kids, 0)
  {
    |kids| == |items| && forall k | 0 <= k < |kids| :: (KidInside(kids, k, 0); Value(kids[k]) == items[k])
  }

  /** These trees stand for these members. */
  ghost predicate StandForMembers(kids: seq<Shape>, members: seq<Member>)
    reads Inner(kids, 0)
  {
    && |kids| == |members|
    && forall k | 0 <= k < |kids| :: (KidInside(kids, k, 0); Member(kids[k].root.name, Value(kids[k])) == members[k])
  }

  lemma {:induction false} NoneStandForNothing()
    ensures StandFor([], []) && StandForMembers([], [])
  {
  }

  lemma {:induction false} ValueOfArray(sh: Shape, items: seq<Json>)
    requires sh.root.kind == KindArray && StandFor(sh.kids, items)
    ensures Value(sh) == Array(items)
  {
    hide SayAll, ItemsOf, Inner, Foot;
    var said := SayAll(sh.kids, 0);
    forall k | 0 <= k < |items| ensures ItemsOf(said, 0)[k] == items[k] {
      ItemsOfAt(said, 0, k);
      SayAllAt(sh.kids, 0, k);
    }
    assert ItemsOf(said, 0) == items;
  }

  lemma {:induction false} ValueOfObject(sh: Shape, members: seq<Member>)
    requires sh.root.kind == KindObject && StandForMembers(sh.kids, members)
    ensures Value(sh) == Object(members)
  {
    hide SayAll, MembersOf, Inner, Foot;
    var said := SayAll(sh.kids, 0);
    forall k | 0 <= k < |members| ensures MembersOf(said, 0)[k] == members[k] {
      MembersOfAt(said, 0, k);
      SayAllAt(sh.kids, 0, k);
    }
    assert MembersOf(said, 0) == members;
  }
}
