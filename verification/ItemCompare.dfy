/** `cJSON_Compare` as it walks two trees of items. */
module ItemCompare {
  import opened Bytes
  import opened JsonTree
  import opened JsonLookup
  import opened JsonCompare
  import opened ItemList
  import opened ItemTrees
  import opened ItemValues

  lemma {:induction false} ItemNesting(items: seq<Json>, k: nat, i: nat)
    requires k <= i < |items|
    ensures Nesting(items[i]) <= ItemsNesting(items, k)
    decreases i - k
  {
    if k == i {
    } else {
      ItemNesting(items, k + 1, i);
    }
  }

  lemma {:induction false} MemberNesting(members: seq<Member>, k: nat, i: nat)
    requires k <= i < |members|
    ensures Nesting(members[i].value) <= MembersNesting(members, k)
    decreases i - k
  {
    if k == i {
    } else {
      MemberNesting(members, k + 1, i);
    }
  }

  /** The item is the root of this tree. */
  ghost predicate Rooted(item: Item, sh: Shape)
    reads Foot(sh)
  {
    Tree(sh) && sh.root == item
  }

  /** Meeting the same item on both sides tells nothing wrong: there is no such item, or no key is repeated. */
  ghost predicate SharingHarmless(sa: Shape, sb: Shape)
    reads Foot(sa), Foot(sb)
  {
    Foot(sa) !! Foot(sb) || KeysDistinct(Value(sa)) || KeysDistinct(Value(sb))
  }

  /** The `k`-th child of an array. */
  lemma {:induction false} ArrayKid(sh: Shape, k: nat)
    requires Rooted(sh.root, sh) && sh.root.kind == KindArray && k < |sh.kids|
    ensures |Value(sh).items| == |sh.kids| && Value(sh).items[k] == Value(sh.kids[k])
    ensures Rooted(sh.kids[k].root, sh.kids[k]) && sh.kids[k].root.next == ItemAt(Roots(sh.kids), k + 1)
    ensures Nesting(Value(sh.kids[k])) < Nesting(Value(sh)) && Foot(sh.kids[k]) <= Foot(sh)
  {
    hide Tree, SayAll;
    KidOf(sh, k);
    KidSays(sh, k);
    ItemsOfAt(Says(sh).kids, 0, k);
    ItemNesting(Value(sh).items, 0, k);
  }

  /** The `k`-th child of an object. */
  lemma {:induction false} ObjectKid(sh: Shape, k: nat)
    requires Rooted(sh.root, sh) && sh.root.kind == KindObject && k < |sh.kids|
    ensures |Value(sh).members| == |sh.kids| && Value(sh).members[k] == Member(sh.kids[k].root.name, Value(sh.kids[k]))
    ensures Rooted(sh.kids[k].root, sh.kids[k]) && sh.kids[k].root.next == ItemAt(Roots(sh.kids), k + 1)
    ensures Nesting(Value(sh.kids[k])) < Nesting(Value(sh)) && Foot(sh.kids[k]) <= Foot(sh)
  {
    hide Tree, SayAll;
    KidOf(sh, k);
    KidSays(sh, k);
    MembersOfAt(Says(sh).kids, 0, k);
    MemberNesting(Value(sh).members, 0, k);
  }

  lemma {:induction false} Children(item: Item, sh: Shape)
    requires Rooted(item, sh)
    ensures sh.root == item && item.child == ItemAt(Roots(sh.kids), 0)
    ensures match item.kind
            case KindNull => Value(sh) == Null
            case KindFalse => Value(sh) == False
            case KindTrue => Value(sh) == True
            case KindNumber => Value(sh) == Number(item.number)
            case KindString => Value(sh) == String(item.text)
            case KindArray => Value(sh).Array? && |Value(sh).items| == |sh.kids|
            case KindObject => Value(sh).Object? && |Value(sh).members| == |sh.kids|
  {
  }

  /** A tree of items says by itself which items it has. */
  lemma {:induction false} ShapeIsDetermined(sa: Shape, sb: Shape)
    requires Tree(sa) && Tree(sb) && sa.root == sb.root
    ensures sa == sb
    decreases sa
  {
    hide Separate, Inner;
    ListIsDetermined(sa.root.child, Roots(sa.kids), Roots(sb.kids), 0);
    assert |sa.kids| == |Roots(sa.kids)| == |Roots(sb.kids)| == |sb.kids|;
    forall k | 0 <= k < |sa.kids| ensures sa.kids[k] == sb.kids[k] {
      assert Roots(sa.kids)[k] == Roots(sb.kids)[k];
      ShapeIsDetermined(sa.kids[k], sb.kids[k]);
    }
    assert sa.kids == sb.kids;
  }

  /** The same item on both sides. */
  lemma {:induction false} SameRoot(item: Item, sa: Shape, sb: Shape)
    requires Rooted(item, sa) && Rooted(item, sb) && SharingHarmless(sa, sb)
    ensures Same(Value(sa), Value(sb))
  {
    hide Tree, Value, Same;
    ShapeIsDetermined(sa, sb);
    assert item in Foot(sa);
    DistinctAgree(Value(sa));
    SameAsItself(Value(sa));
  }

  /** If sharing is harmless, then so it is for a child of each. */
  lemma {:induction false} HarmlessKids(sa: Shape, sb: Shape, i: nat, j: nat)
    requires Rooted(sa.root, sa) && Rooted(sb.root, sb)
    requires sa.root.kind == sb.root.kind && (sa.root.kind == KindArray || sa.root.kind == KindObject)
    requires i < |sa.kids| && j < |sb.kids| && SharingHarmless(sa, sb)
    ensures SharingHarmless(sa.kids[i], sb.kids[j])
  {
    hide Tree, Value, Foot, Inner;
    KidDistinct(sa, i);
    KidDistinct(sb, j);
  }

  lemma {:induction false} KidDistinct(sh: Shape, k: nat)
    requires Tree(sh) && (sh.root.kind == KindArray || sh.root.kind == KindObject) && k < |sh.kids|
    ensures KeysDistinct(Value(sh)) ==> KeysDistinct(Value(sh.kids[k]))
    ensures Foot(sh.kids[k]) <= Foot(sh)
  {
    hide Tree, Value;
    Children(sh.root, sh);
    if sh.root.kind == KindArray {
      ArrayKid(sh, k);
    } else {
      ObjectKid(sh, k);
      assert KeysDistinct(Value(sh)) ==> MemberKeysDistinct(Value(sh).members[k]);
    }
  }

  /** `get_object_item`, case-sensitive; `j` is the place of the item. */
  method GetObjectItem(parent: Item, name: seq<byte>, ghost sh: Shape) returns (item: Item?, ghost j: nat)
    requires Rooted(parent, sh) && parent.kind == KindObject
    ensures item != null <==> FirstNamed(Value(sh).members, name, 0).Some?
    ensures match FirstNamed(Value(sh).members, name, 0)
            case None => true
            case Some(v) => j < |sh.kids| && item == sh.kids[j].root && v == Value(sh.kids[j])
  {
    hide Value, Rooted;
    Children(parent, sh);
    item, j := parent.child, 0;
    ghost var members := Value(sh).members;
    assert allocated(Foot(sh));
    while item != null && item.name != name
      invariant Rooted(parent, sh) && Value(sh).Object? && Value(sh).members == members
      invariant j <= |sh.kids| == |members| && item == ItemAt(Roots(sh.kids), j)
      invariant FirstNamed(members, name, 0) == FirstNamed(members, name, j)
      decreases |sh.kids| - j
    {
      ObjectKid(sh, j);
      item, j := item.next, j + 1;
    }
    if item != null {
      ObjectKid(sh, j);
    }
  }

  /** The loop over two arrays. */
  method CompareArrays(a: Item, b: Item, ghost sa: Shape, ghost sb: Shape) returns (same: bool)
    requires Rooted(a, sa) && Rooted(b, sb) && a.kind == b.kind == KindArray
    ensures SharingHarmless(sa, sb) ==> same == Same(Value(sa), Value(sb))
    decreases Nesting(Value(sa)) + Nesting(Value(sb)), 0
  {
    hide Value, Rooted, Same, SharingHarmless;
    Children(a, sa);
    Children(b, sb);
    ghost var va, vb, xs, ys := Value(sa), Value(sb), Value(sa).items, Value(sb).items;
    SameArrays(va, vb);
    assert allocated(Foot(sa)) && allocated(Foot(sb));
    var aElement, bElement := a.child, b.child;
    ghost var k := 0;
    while aElement != null && bElement != null
      invariant allocated(Foot(sa)) && allocated(Foot(sb))
      invariant Rooted(a, sa) && Rooted(b, sb) && Value(sa) == va && Value(sb) == vb
      invariant k <= |xs| == |sa.kids| && k <= |ys| == |sb.kids|
      invariant aElement == ItemAt(Roots(sa.kids), k) && bElement == ItemAt(Roots(sb.kids), k)
      invariant SharingHarmless(sa, sb) ==> SameItems(xs, ys, 0) == SameItems(xs, ys, k)
      decreases |xs| - k
    {
      ArrayKid(sa, k);
      ArrayKid(sb, k);
      if SharingHarmless(sa, sb) {
        HarmlessKids(sa, sb, k, k);
      }
      same := Compare(aElement, bElement, sa.kids[k], sb.kids[k]);
      if !same {
        return;
      }
      aElement, bElement, k := aElement.next, bElement.next, k + 1;
    }
    same := aElement == null && bElement == null;
  }

  lemma {:induction false} SameArrays(a: Json, b: Json)
    requires a.Array? && b.Array?
    ensures Same(a, b) == SameItems(a.items, b.items, 0)
  {
  }

  /** The loop that looks up each member of one object in the other. */
  method FindAll(a: Item, b: Item, ghost sa: Shape, ghost sb: Shape) returns (same: bool)
    requires Rooted(a, sa) && Rooted(b, sb) && a.kind == b.kind == KindObject
    ensures SharingHarmless(sa, sb) ==> same == AllFound(Value(sa).members, Value(sb).members, 0)
    decreases Nesting(Value(sa)) + Nesting(Value(sb)), 0
  {
    hide Value, Rooted, Same, SharingHarmless, FirstNamed, List;
    Children(a, sa);
    Children(b, sb);
    ghost var va, vb, members, others := Value(sa), Value(sb), Value(sa).members, Value(sb).members;
    assert allocated(Foot(sa)) && allocated(Foot(sb));
    var aElement := a.child;
    ghost var k := 0;
    while aElement != null
      invariant allocated(Foot(sa)) && allocated(Foot(sb))
      invariant Rooted(a, sa) && Rooted(b, sb) && Value(sa) == va && Value(sb) == vb
      invariant k <= |members| == |sa.kids| && aElement == ItemAt(Roots(sa.kids), k)
      invariant SharingHarmless(sa, sb) ==> AllFound(members, others, 0) == AllFound(members, others, k)
      decreases |members| - k
    {
      var bElement;
      ghost var j;
      bElement, j := GetObjectItem(b, aElement.name, sb);
      ObjectKid(sa, k);
      if bElement == null {
        return false;
      }
      ObjectKid(sb, j);
      if SharingHarmless(sa, sb) {
        HarmlessKids(sa, sb, k, j);
      }
      same := Compare(aElement, bElement, sa.kids[k], sb.kids[j]);
      if !same {
        return;
      }
      aElement, k := aElement.next, k + 1;
    }
    same := true;
  }

  /** `cJSON_Compare`, case-sensitive. */
  method Compare(a: Item?, b: Item?, ghost sa: Shape, ghost sb: Shape) returns (same: bool)
    requires (a != null ==> Rooted(a, sa)) && (b != null ==> Rooted(b, sb))
    ensures a == null || b == null ==> !same
    ensures a != null && b != null && SharingHarmless(sa, sb) ==> same == Same(Value(sa), Value(sb))
    ensures a != null && a == b ==> same
    decreases (if a == null then 0 else Nesting(Value(sa))) + (if b == null then 0 else Nesting(Value(sb))), 1
  {
    if a == null || b == null || a.kind != b.kind {
      return false;
    }
    hide Value, Rooted, SharingHarmless;
    Children(a, sa);
    Children(b, sb);
    if a == b {
      if SharingHarmless(sa, sb) {
        SameRoot(a, sa, sb);
      }
      return true;
    }
    assert allocated(Foot(sa)) && allocated(Foot(sb));
    match a.kind
    case KindNull => same := true;
    case KindFalse => same := true;
    case KindTrue => same := true;
    case KindNumber => same := CompareDouble(a.number, b.number);
    case KindString => same := a.text == b.text;
    case KindArray => same := CompareArrays(a, b, sa, sb);
    case KindObject =>
      same := FindAll(a, b, sa, sb);
      if same {
        HarmlessEitherWay(sa, sb);
        same := FindAll(b, a, sb, sa);
      }
  }

  lemma {:induction false} HarmlessEitherWay(sa: Shape, sb: Shape)
    ensures SharingHarmless(sa, sb) <==> SharingHarmless(sb, sa)
  {
  }

  /** `cJSON_Compare` of trees of ints and distinct keys is equality with objects read as maps. */
  method ComparePlain(a: Item, b: Item, ghost sa: Shape, ghost sb: Shape) returns (same: bool)
    requires Rooted(a, sa) && Rooted(b, sb) && Plain(Value(sa)) && Plain(Value(sb))
    ensures same <==> Canonical(Value(sa)) == Canonical(Value(sb))
  {
    hide Value, Rooted, Same, Canonical, Plain, KeysDistinct;
    ghost var va, vb := Value(sa), Value(sb);
    PlainIsDistinct(va);
    CompareIsEquality(va, vb);
    assert SharingHarmless(sa, sb) && allocated(Foot(sa)) && allocated(Foot(sb));
    same := Compare(a, b, sa, sb);
  }

  /**
   `cJSON_Duplicate` and then `cJSON_Compare`: a recursive duplicate compares equal if and only if repeated keys
   agree.
   */
  method DuplicateCompares(item: Item, ghost sh: Shape) returns (same: bool)
    requires Rooted(item, sh)
    ensures same <==> FirstsAgree(Value(sh))
  {
    var copy;
    ghost var sh';
    assert allocated(Foot(sh));
    copy, sh' := Duplicate(item, true, sh);
    assert allocated(Foot(sh'));
    SameAsItself(Value(sh));
    same := Compare(item, copy, sh, sh');
  }
}
