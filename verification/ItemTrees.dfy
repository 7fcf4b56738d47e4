/**
 Trees of items on the heap, and recursive duplicates, which say the same and share nothing.
 */
module ItemTrees {
  import opened Bytes
  import opened ItemList

  /** Which items make up a tree. */
  datatype Shape = Shape(root: Item, kids: seq<Shape>)

  function Roots(kids: seq<Shape>): (r: seq<Item>)
    ensures |r| == |kids| && forall k :: 0 <= k < |r| ==> r[k] == kids[k].root
  {
    seq(|kids|, k requires 0 <= k < |kids| => kids[k].root)
  }

  /** The items of a tree. */
  ghost function Foot(sh: Shape): set<Item>
    decreases sh, 0
  {
    {sh.root} + Inner(sh.kids, 0)
  }

  /** The items of these trees from the `k`-th on. */
  ghost function Inner(kids: seq<Shape>, k: nat): set<Item>
    requires k <= |kids|
    decreases kids, |kids| - k
  {
    if k == |kids| then {} else Foot(kids[k]) + Inner(kids, k + 1)
  }

  lemma {:induction false} KidInside(kids: seq<Shape>, i: nat, k: nat)
    requires k <= i < |kids|
    ensures Foot(kids[i]) <= Inner(kids, k)
    decreases i - k
  {
    if k == i {
    } else {
      KidInside(kids, i, k + 1);
    }
  }

  /** No item is in two of these trees. */
  ghost predicate Separate(kids: seq<Shape>)
  {
    forall i: nat, j: nat :: TwoSeparate(kids, i, j)
  }

  ghost predicate TwoSeparate(kids: seq<Shape>, i: nat, j: nat)
  {
    i < j < |kids| ==> Foot(kids[i]) !! Foot(kids[j])
  }

  /** The items are linked into this tree. */
  ghost predicate Tree(sh: Shape)
    reads sh.root`child, Inner(sh.kids, 0)
    decreases sh
  {
    && sh.root !in Inner(sh.kids, 0) && Separate(sh.kids)
    && (forall k | 0 <= k < |sh.kids| :: sh.kids[k].root in Inner(sh.kids, 0))
    && List(sh.root.child, Roots(sh.kids))
    && forall k | 0 <= k < |sh.kids| :: (KidInside(sh.kids, k, 0); Tree(sh.kids[k]))
  }

  /** What an item and the items under it say. */
  datatype Said = Said(kind: Kind, number: real, text: seq<byte>, name: seq<byte>, kids: seq<Said>)

  ghost function Says(sh: Shape): Said
    reads sh.root`kind, sh.root`number, sh.root`text, sh.root`name, Inner(sh.kids, 0)
    decreases sh, 0
  {
    Said(sh.root.kind, sh.root.number, sh.root.text, sh.root.name, SayAll(sh.kids, 0))
  }

  ghost function SayAll(kids: seq<Shape>, k: nat): (r: seq<Said>)
    requires k <= |kids|
    reads Inner(kids, k)
    ensures |r| == |kids| - k
    decreases kids, |kids| - k
  {
    if k == |kids| then []
    else
      assert Foot(kids[k]) == {kids[k].root} + Inner(kids[k].kids, 0);
      [Says(kids[k])] + SayAll(kids, k + 1)
  }

  // ---------------------------------------------------------------- duplicates

  ghost predicate ChainLink(items: seq<Item>, i: nat)
    reads items`next, items`prev
  {
    i < |items| ==> items[i].next == ItemAt(items, i + 1) && items[i].prev == ItemAt(items, i - 1)
  }

  /** A list under construction: the first item does not lead to the last yet. */
  ghost predicate Chain(head: Item?, items: seq<Item>)
    reads items`next, items`prev
  {
    Distinct(items) && head == ItemAt(items, 0) && forall i: nat :: ChainLink(items, i)
  }

  /** These trees, none of which shares an item with another. */
  ghost predicate Trees(kids: seq<Shape>)
    reads Inner(kids, 0)
  {
    && Separate(kids) && (forall k | 0 <= k < |kids| :: kids[k].root in Inner(kids, 0))
    && forall k | 0 <= k < |kids| :: (KidInside(kids, k, 0); Tree(kids[k]))
  }

  /** These trees are being chained one behind the other. */
  ghost predicate Hung(head: Item?, kids: seq<Shape>)
    reads Inner(kids, 0)
  {
    Trees(kids) && Chain(head, Roots(kids))
  }

  /** The root of one of these trees is not below the root of any. */
  lemma {:induction false} RootOutside(kids: seq<Shape>, j: nat, k: nat)
    requires Separate(kids) && j < |kids| && k < |kids| && Tree(kids[k])
    ensures kids[j].root !in Inner(kids[k].kids, 0)
  {
    assert TwoSeparate(kids, j, k) && TwoSeparate(kids, k, j);
    assert kids[j].root in Foot(kids[j]);
  }

  lemma {:induction false} InnerLonger(kids: seq<Shape>, c: Shape, k: nat)
    requires k <= |kids|
    ensures Inner(kids + [c], k) == Inner(kids, k) + Foot(c)
    decreases |kids| - k
  {
    if k == |kids| {
      assert Inner(kids + [c], k + 1) == {};
    } else {
      InnerLonger(kids, c, k + 1);
    }
  }

  /** The new item goes behind `last`, or becomes the first. */
  method LinkBehind(head: Item?, last: Item?, newItem: Item, ghost items: seq<Item>) returns (first: Item?)
    requires Chain(head, items) && last == ItemAt(items, |items| - 1)
    requires newItem !in items && newItem.next == null && newItem.prev == null
    modifies Only(last)`next, newItem`prev
    ensures Chain(first, items + [newItem])
  {
    first := head;
    if last != null {
      last.next := newItem;
      newItem.prev := last;
    } else {
      first := newItem;
    }
    forall i: nat ensures ChainLink(items + [newItem], i) {
      assert old(ChainLink(items, i)) && (items != [] ==> Apart(items, i, |items| - 1));
    }
    forall i: nat, j: nat ensures Apart(items + [newItem], i, j) {
      assert Apart(items, i, j);
    }
  }

  lemma {:induction false} StillSeparate(kids: seq<Shape>, c: Shape)
    requires Separate(kids) && Foot(c) !! Inner(kids, 0)
    ensures Separate(kids + [c])
    ensures Roots(kids + [c]) == Roots(kids) + [c.root] && c.root !in Roots(kids)
  {
    hide Inner;
    FootParts(c);
    forall k | 0 <= k < |kids| ensures Foot(kids[k]) <= Inner(kids, 0) && kids[k].root in Inner(kids, 0) {
      FootParts(kids[k]);
      KidInside(kids, k, 0);
    }
    forall k: nat, j: nat ensures TwoSeparate(kids + [c], k, j) {
      assert TwoSeparate(kids, k, j);
    }
    assert forall k :: 0 <= k < |kids| ==> Roots(kids)[k] in Inner(kids, 0);
  }

  lemma {:induction false} FootParts(sh: Shape)
    ensures Foot(sh) == {sh.root} + Inner(sh.kids, 0)
  {
  }

  lemma {:induction false} MoreTrees(kids: seq<Shape>, c: Shape)
    requires Trees(kids) && Tree(c) && Foot(c) !! Inner(kids, 0)
    ensures Trees(kids + [c]) && Inner(kids + [c], 0) == Inner(kids, 0) + Foot(c)
    ensures Roots(kids + [c]) == Roots(kids) + [c.root] && c.root !in Roots(kids)
  {
    hide Tree, Inner, Foot, Separate;
    StillSeparate(kids, c);
    InnerLonger(kids, c, 0);
    FootParts(c);
    var longer := kids + [c];
    assert longer[|kids|] == c && forall k :: 0 <= k < |kids| ==> longer[k] == kids[k];
    forall k | 0 <= k < |longer| ensures longer[k].root in Inner(longer, 0) && Tree(longer[k]) {
      assert longer[k] == if k < |kids| then kids[k] else c;
    }
  }

  /** The next tree goes behind the last one, which is the loop body of `cJSON_Duplicate` and of the parser. */
  method Hang(head: Item?, last: Item?, newItem: Item, ghost kids: seq<Shape>, ghost c: Shape) returns (first: Item?)
    requires Hung(head, kids) && last == ItemAt(Roots(kids), |kids| - 1)
    requires Tree(c) && c.root == newItem && newItem.next == null && newItem.prev == null && Foot(c) !! Inner(kids, 0)
    modifies Only(last)`next, newItem`prev
    ensures Hung(first, kids + [c]) && Trees(kids) && Inner(kids + [c], 0) == Inner(kids, 0) + Foot(c)
    ensures Says(c) == old(Says(c)) && forall k :: 0 <= k < |kids| ==> Says(kids[k]) == old(Says(kids[k]))
  {
    hide Chain, Says, Tree, Inner, Foot, Separate;
    ghost var longer := kids + [c];
    MoreTrees(kids, c);
    assert longer[|kids|] == c && forall k :: 0 <= k < |kids| ==> longer[k] == kids[k];
    assert last != null ==> last == longer[|longer| - 2].root;
    forall k | 0 <= k < |longer| ensures newItem !in Inner(longer[k].kids, 0) && last !in Inner(longer[k].kids, 0) {
      RootOutside(longer, |longer| - 1, k);
      if last != null {
        RootOutside(longer, |longer| - 2, k);
      }
    }
    first := LinkBehind(head, last, newItem, Roots(kids));
    forall k | 0 <= k < |longer| ensures Tree(longer[k]) && Says(longer[k]) == old(Says(longer[k])) {
      assert old(allocated(longer[k])) && old(allocated(Inner(longer[k].kids, 0)));
    }
  }

  /** The last step of such a loop: the first item leads to the last. */
  method CloseList(head: Item?, last: Item?, ghost kids: seq<Shape>)
    requires Hung(head, kids) && last == ItemAt(Roots(kids), |kids| - 1)
    modifies Only(head)`prev
    ensures Trees(kids) && List(head, Roots(kids))
    ensures forall k :: 0 <= k < |kids| ==> Says(kids[k]) == old(Says(kids[k]))
  {
    hide Says, Inner, Foot;
    ghost var items := Roots(kids);
    forall k | 0 <= k < |kids| ensures head !in Inner(kids[k].kids, 0) {
      RootOutside(kids, 0, k);
    }
    if head != null {
      head.prev := last;
    }
    forall i: nat ensures Link(items, i) {
      assert old(ChainLink(items, i)) && Apart(items, 0, i);
    }
    forall k | 0 <= k < |kids| ensures Tree(kids[k]) && Says(kids[k]) == old(Says(kids[k])) {
    }
  }

  /** A root whose child list these trees are. */
  lemma {:induction false} TreeOf(root: Item, kids: seq<Shape>)
    requires Trees(kids) && root !in Inner(kids, 0) && List(root.child, Roots(kids))
    ensures Tree(Shape(root, kids))
  {
  }

  lemma {:induction false} NoTrees()
    ensures Hung(null, []) && Inner([], 0) == {} && Roots([]) == []
  {
  }

  lemma {:induction false} SayAllAt(kids: seq<Shape>, k: nat, i: nat)
    requires k <= i < |kids|
    ensures SayAll(kids, k)[i - k] == Says(kids[i])
    decreases i - k
  {
    if k == i {
    } else {
      SayAllAt(kids, k + 1, i);
    }
  }

  /** A child of a tree, and where the walk along the children gets to behind it. */
  lemma {:induction false} KidOf(sh: Shape, k: nat)
    requires Tree(sh) && k < |sh.kids|
    ensures Tree(sh.kids[k]) && Says(sh).kids[k] == Says(sh.kids[k])
    ensures sh.kids[k].root.next == ItemAt(Roots(sh.kids), k + 1) && Foot(sh.kids[k]) <= Foot(sh)
  {
    hide Says;
    assert Link(Roots(sh.kids), k);
    KidInside(sh.kids, k, 0);
    KidSays(sh, k);
  }

  lemma {:induction false} KidSays(sh: Shape, k: nat)
    requires k < |sh.kids|
    ensures Says(sh).kids == SayAll(sh.kids, 0) && Says(sh).kids[k] == Says(sh.kids[k])
  {
    SayAllAt(sh.kids, 0, k);
  }

  lemma {:induction false} SayAllIs(kids: seq<Shape>, said: seq<Said>, k: nat)
    requires k <= |kids| == |said| && forall i :: 0 <= i < |kids| ==> Says(kids[i]) == said[i]
    ensures SayAll(kids, k) == said[k..]
    decreases |kids| - k
  {
    hide Says;
    if k == |kids| {
    } else {
      SayAllIs(kids, said, k + 1);
      assert said[k..] == [said[k]] + said[k + 1..];
    }
  }

  /** These trees hang under `parent`. */
  ghost predicate Grown(parent: Item, kids: seq<Shape>)
    reads parent`child, Inner(kids, 0)
  {
    parent !in Inner(kids, 0) && Hung(parent.child, kids)
  }

  /** One turn of the loop of `cJSON_Duplicate`: the next child's copy goes behind those that are there. */
  method DuplicateChild(parent: Item, next: Item?, child: Item, ghost copies: seq<Shape>, ghost sh: Shape)
    returns (newChild: Item, ghost c: Shape)
    requires Grown(parent, copies) && next == ItemAt(Roots(copies), |copies| - 1)
    requires Tree(sh) && sh.root == child
    modifies parent`child, Only(next)`next
    ensures Grown(parent, copies + [c]) && c.root == newChild && fresh(Foot(c))
    ensures Says(c) == old(Says(sh)) && forall k :: 0 <= k < |copies| ==> Says(copies[k]) == old(Says(copies[k]))
    ensures Inner(copies + [c], 0) == Inner(copies, 0) + Foot(c)
    decreases sh, 2
  {
    hide Tree, Says, Hung, Inner;
    assert allocated(Inner(copies, 0)) && allocated(Inner(sh.kids, 0));
    assert forall k :: 0 <= k < |copies| ==> allocated(Inner(copies[k].kids, 0));
    newChild, c := Duplicate(child, true, sh);
    assert newChild in Foot(c);
    forall k | 0 <= k < |copies| ensures parent !in Foot(copies[k]) {
      KidInside(copies, k, 0);
    }
    parent.child := Hang(parent.child, next, newChild, copies, c);
  }

  /** `cJSON_Duplicate`: a tree of new items that says the same; with `recurse` off, the item without children. */
  method Duplicate(item: Item?, recurse: bool, ghost sh: Shape) returns (newItem: Item?, ghost copy: Shape)
    requires item != null ==> Tree(sh) && sh.root == item
    ensures newItem == null <==> item == null
    ensures item != null ==>
              && copy.root == newItem && Tree(copy) && fresh(Foot(copy)) && newItem.next == null && newItem.prev == null
              && Says(copy) == if recurse then Says(sh) else Says(sh).(kids := [])
    decreases sh, 1
  {
    copy := sh;
    if item == null {
      return null, sh;
    }
    ghost var said := Says(sh);
    assert allocated(Foot(sh)) && allocated(Inner(sh.kids, 0));
    newItem := new Item(item.kind, item.number, item.text, item.name);
    ghost var copies: seq<Shape> := [];
    if !recurse {
      copy := Shape(newItem, []);
      return;
    }
    copies := DuplicateChildren(newItem, item, sh);
    copy := Shape(newItem, copies);
    SayAllIs(copies, said.kids, 0);
  }

  /** The loop of `cJSON_Duplicate` over the children, and the link that closes the new list. */
  method DuplicateChildren(newItem: Item, item: Item, ghost sh: Shape) returns (ghost copies: seq<Shape>)
    requires Tree(sh) && sh.root == item && newItem.child == null && newItem !in Foot(sh)
    modifies newItem`child
    ensures Tree(Shape(newItem, copies)) && fresh(Inner(copies, 0)) && |copies| == |sh.kids|
    ensures forall k :: 0 <= k < |copies| ==> Says(copies[k]) == old(Says(sh).kids[k])
    decreases sh, 0
  {
    hide Says, Tree, Hung, Inner, Foot;
    copies := [];
    NoTrees();
    ghost var kids := sh.kids;
    var child, next := item.child, null;
    TreeList(sh);
    FootParts(sh);
    assert allocated(Inner(kids, 0));
    while child != null
      invariant |copies| <= |kids| && child == ItemAt(Roots(kids), |copies|)
                && next == ItemAt(Roots(copies), |copies| - 1)
      invariant Grown(newItem, copies) && fresh(Inner(copies, 0)) && fresh(Only(next))
      invariant Tree(sh) && Says(sh) == old(Says(sh))
      invariant forall k :: 0 <= k < |copies| ==> Says(copies[k]) == old(Says(sh).kids[k])
      decreases |kids| - |copies|
    {
      ghost var k := |copies|;
      KidOf(sh, k);
      var newChild;
      ghost var c;
      newChild, c := DuplicateChild(newItem, next, child, copies, kids[k]);
      FootParts(c);
      copies := copies + [c];
      next := newChild;
      child := child.next;
    }
    HungHead(newItem.child, copies);
    CloseList(newItem.child, next, copies);
    TreeOf(newItem, copies);
  }

  lemma {:induction false} HungHead(head: Item?, kids: seq<Shape>)
    requires Hung(head, kids)
    ensures Only(head) <= Inner(kids, 0)
  {
  }

  lemma {:induction false} TreeList(sh: Shape)
    requires Tree(sh)
    ensures sh.root.child == ItemAt(Roots(sh.kids), 0) && |Says(sh).kids| == |sh.kids|
  {
  }
}
