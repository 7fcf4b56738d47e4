/**
 The parser as it runs: one buffer whose offset and depth the parsing methods move, and items that
 are linked into lists of children first and filled afterwards.  Each method is proved to compute the
 function of the same name in `JsonGrammar`, and what it builds is proved to be a tree of new items.
 */
module JsonParser {
  import opened Bytes
  import opened JsonString
  import opened JsonTree
  import opened ItemList
  import opened ItemTrees
  import opened ItemValues
  import G = JsonGrammar

  /** The trees that have been chained up to `current`; what they stand for is to be said. */
  ghost predicate Chained(head: Item?, current: Item?, kids: seq<Shape>)
    reads Inner(kids, 0)
  {
    Hung(head, kids) && current == ItemAt(Roots(kids), |kids| - 1)
  }

  /** `item` is the root of this tree, which stands for `v`. */
  ghost predicate Built(item: Item, sh: Shape, v: Json)
    reads sh.root`child, sh.root`kind, sh.root`number, sh.root`text, sh.root`name, Inner(sh.kids, 0)
  {
    sh.root == item && Tree(sh) && Value(sh) == v
  }

  lemma {:induction false} LoneTree(item: Item)
    requires item.child == null
    ensures Tree(Shape(item, [])) && Foot(Shape(item, [])) == {item}
  {
  }

  lemma {:induction false} LongerChain(head: Item?, newItem: Item, kids: seq<Shape>, c: Shape)
    requires Trees(kids) && Chain(head, Roots(kids) + [newItem])
    requires Tree(c) && c.root == newItem && Foot(c) !! Inner(kids, 0)
    ensures Chained(head, newItem, kids + [c]) && Inner(kids + [c], 0) == Inner(kids, 0) + Foot(c)
  {
    hide Chain, Inner, Tree;
    MoreTrees(kids, c);
  }

  lemma {:induction false} LongerStandFor(kids: seq<Shape>, got: seq<Json>, c: Shape)
    requires StandFor(kids, got)
    ensures StandFor(kids + [c], got + [Value(c)])
  {
    hide Inner, Value;
    var longer := kids + [c];
    assert longer[|kids|] == c && forall k :: 0 <= k < |kids| ==> longer[k] == kids[k];
  }

  lemma {:induction false} LongerStandForMembers(kids: seq<Shape>, got: seq<Member>, c: Shape)
    requires StandForMembers(kids, got)
    ensures StandForMembers(kids + [c], got + [Member(c.root.name, Value(c))])
  {
    hide Inner, Value;
    var longer := kids + [c];
    assert longer[|kids|] == c && forall k :: 0 <= k < |kids| ==> longer[k] == kids[k];
  }

  /** A new item behind those that are there (the loop bodies of `parse_array` and `parse_object`). */
  method NextItem(head: Item?, current: Item?, ghost kids: seq<Shape>, ghost items: seq<Json>,
      ghost members: seq<Member>)
    returns (first: Item?, newItem: Item)
    requires Chained(head, current, kids)
    modifies Only(current)`next
    ensures Trees(kids) && Chain(first, Roots(kids) + [newItem])
    ensures fresh(newItem) && newItem !in Inner(kids, 0) && newItem.child == null && newItem.name == []
    ensures old(StandFor(kids, items)) ==> StandFor(kids, items)
    ensures old(StandForMembers(kids, members)) ==> StandForMembers(kids, members)
  {
    hide Chain, SayAll, ValueOf, Tree, Inner;
    assert allocated(Inner(kids, 0)) && forall k :: 0 <= k < |kids| ==> allocated(Inner(kids[k].kids, 0));
    newItem := new Item.New();
    ghost var c := Shape(newItem, []);
    LoneTree(newItem);
    first := Hang(head, current, newItem, kids, c);
    assert Roots(kids + [c]) == Roots(kids) + [newItem];
  }

  class ParseBuffer {
    const content: seq<byte>
    var offset: nat
    var depth: nat

    ghost predicate Valid()
      reads this
    {
      G.Terminated(content) && offset < |content|
    }

    constructor (content: seq<byte>)
      requires G.Terminated(content)
      ensures Valid() && this.content == content && offset == 0 && depth == 0
    {
      this.content := content;
      offset, depth := 0, 0;
    }

    /** `buffer_skip_whitespace`. */
    method SkipWhitespace()
      requires Valid()
      modifies `offset
      ensures Valid() && offset == G.SkipWs(content, old(offset))
    {
      while offset < |content| && content[offset] <= SP
        invariant old(offset) <= offset <= |content|
        invariant G.WsEnd(content, offset) == G.WsEnd(content, old(offset))
      {
        offset := offset + 1;
      }
      if offset == |content| {
        offset := offset - 1;
      }
    }

    /** `skip_utf8_bom`. */
    method SkipBom()
      requires Valid() && offset == 0
      modifies `offset
      ensures Valid() && offset == G.BomEnd(content)
    {
      if |content| > 4 && content[0] == 0xEF && content[1] == 0xBB && content[2] == 0xBF {
        offset := 3;
      }
    }

    /** How many of the next bytes `parse_number` copies. */
    method CountNumberChars() returns (n: nat)
      requires Valid()
      ensures offset + n == G.NumberCharsEnd(content, offset, 63)
    {
      n := 0;
      while n < 63 && offset + n < |content| && G.IsNumberChar(content[offset + n])
        invariant 0 <= n <= 63 && offset + n <= |content|
        invariant G.NumberCharsEnd(content, offset + n, 63 - n) == G.NumberCharsEnd(content, offset, 63)
      {
        n := n + 1;
      }
    }

    /** `parse_number`. */
    method ParseNumber(item: Item) returns (ok: bool)
      requires Valid()
      modifies `offset, item`kind, item`number
      ensures match G.ParseNumber(content, old(offset))
              case Bad => !ok
              case Parsed(v, next) => ok && offset == next && item.kind == KindNumber && v == Number(item.number)
    {
      hide G.NumberEnd, G.NumberValue, G.NumberCharsEnd;
      var n := CountNumberChars();
      var end := G.NumberEnd(content, offset, offset + n);
      if end == offset {
        return false;
      }
      item.number := G.NumberValue(content, offset, offset + n);
      item.kind := KindNumber;
      offset := end;
      return true;
    }

    /** `parse_string`; the text is what C string functions see of the filled array. */
    method ParseString(item: Item) returns (ok: bool)
      requires Valid()
      modifies `offset, item`kind, item`text
      ensures match G.ParseString(content, old(offset))
              case BadString => !ok
              case ParsedString(t, next) => ok && offset == next && item.kind == KindString && item.text == t
    {
      if content[offset] != QUOTE {
        return false;
      }
      var output, n, end := ParseLiteral(content, offset);
      if end.None? {
        return false;
      }
      item.kind, item.text := KindString, CString(output[..n]);
      offset := end.value + 1;
      return true;
    }

    /** `parse_value`, for a new item. */
    method ParseValue(item: Item) returns (ok: bool, ghost sh: Shape)
      requires Valid() && item.child == null
      modifies this, item`child, item`kind, item`number, item`text
      ensures match G.ParseValue(content, old(offset), old(depth))
              case Bad => !ok
              case Parsed(v, next) => ok && offset == next && depth == old(depth) && Built(item, sh, v)
      ensures ok ==> fresh(Inner(sh.kids, 0))
      decreases |content| - offset, 1
    {
      sh := Shape(item, []);
      if G.IsNull(content, offset) {
        item.kind := KindNull;
        offset := offset + 4;
        return true, sh;
      }
      if G.IsFalse(content, offset) {
        item.kind := KindFalse;
        offset := offset + 5;
        return true, sh;
      }
      if G.IsTrue(content, offset) {
        item.kind := KindTrue;
        offset := offset + 4;
        return true, sh;
      }
      if content[offset] == QUOTE {
        ok := ParseString(item);
        return;
      }
      if content[offset] == G.MINUS || G.IsDigit(content[offset]) {
        ok := ParseNumber(item);
        return;
      }
      if content[offset] == 0x5B {
        ok, sh := ParseArray(item);
        return;
      }
      if content[offset] == 0x7B {
        ok, sh := ParseObject(item);
        return;
      }
      return false, sh;
    }

    /** One turn of the loop of `parse_array`, up to the white space behind the item. */
    method ParseItem(head: Item?, current: Item?, ghost kids: seq<Shape>, ghost got: seq<Json>)
      returns (ok: bool, first: Item?, newItem: Item, ghost c: Shape, ghost v: Json)
      requires Valid() && Chained(head, current, kids) && StandFor(kids, got)
      modifies this, Only(current)`next
      ensures var goal := old(G.ParseItems(content, offset, depth, got));
              if ok then Valid() && offset > old(offset) && depth == old(depth)
                         && goal == G.AfterItem(content, offset, depth, got + [v])
              else goal.Bad?
      ensures ok ==> Chained(first, newItem, kids + [c]) && StandFor(kids + [c], got + [v])
      ensures ok ==> fresh(Foot(c)) && Inner(kids + [c], 0) == Inner(kids, 0) + Foot(c)
      decreases |content| - offset, 2
    {
      hide Chained, Chain, Trees, Inner, Tree, Says, StandFor, Value, G.SkipWs, G.AfterItem, G.ParseValue;
      assert allocated(Inner(kids, 0));
      first, newItem := NextItem(head, current, kids, got, []);
      SkipWhitespace();
      ok, c := ParseValue(newItem);
      v := Null;
      if ok {
        v := Value(c);
        LongerChain(first, newItem, kids, c);
        LongerStandFor(kids, got, c);
        assert allocated(Inner(kids + [c], 0));
        SkipWhitespace();
      }
    }

    /** The name of a child, up to its value: the text that is parsed is moved to the name. */
    method ParseName(item: Item) returns (ok: bool)
      requires Valid()
      modifies `offset, item`kind, item`text, item`name
      ensures ok ==> Valid() && offset > old(offset)
      ensures match G.ParseString(content, G.SkipWs(content, old(offset)))
              case BadString => !ok
              case ParsedString(key, next) =>
                var i := G.SkipWs(content, next);
                if content[i] == COLON then ok && offset == G.SkipWs(content, i + 1) && item.name == key else !ok
    {
      hide G.ParseString, G.SkipWs;
      SkipWhitespace();
      ok := ParseString(item);
      if !ok {
        return;
      }
      SkipWhitespace();
      item.name := item.text;
      item.text := [];
      if content[offset] != COLON {
        return false;
      }
      offset := offset + 1;
      SkipWhitespace();
    }

    /** One turn of the loop of `parse_object`. */
    method ParseMember(head: Item?, current: Item?, ghost kids: seq<Shape>, ghost got: seq<Member>)
      returns (ok: bool, first: Item?, newItem: Item, ghost c: Shape, ghost m: Member)
      requires Valid() && Chained(head, current, kids) && StandForMembers(kids, got)
      modifies this, Only(current)`next
      ensures var goal := old(G.ParseMembers(content, offset, depth, got));
              if ok then Valid() && offset > old(offset) && depth == old(depth)
                         && goal == G.AfterMember(content, offset, depth, got + [m])
              else goal.Bad?
      ensures ok ==> Chained(first, newItem, kids + [c]) && StandForMembers(kids + [c], got + [m])
      ensures ok ==> fresh(Foot(c)) && Inner(kids + [c], 0) == Inner(kids, 0) + Foot(c)
      decreases |content| - offset, 2
    {
      hide Chained, Chain, Trees, Inner, Tree, Says, StandForMembers, Value, G.SkipWs, G.AfterMember, G.ParseValue,
        G.ParseString;
      assert allocated(Inner(kids, 0));
      first, newItem := NextItem(head, current, kids, [], got);
      c, m := Shape(newItem, []), Member([], Null);
      ok := ParseName(newItem);
      if !ok {
        return;
      }
      ok, c := ParseValue(newItem);
      if ok {
        m := Member(newItem.name, Value(c));
        LongerChain(first, newItem, kids, c);
        LongerStandForMembers(kids, got, c);
        assert allocated(Inner(kids + [c], 0));
        SkipWhitespace();
      }
    }

    /** The loop of `parse_array`. */
    method ParseItems() returns (ok: bool, head: Item?, current: Item?, ghost kids: seq<Shape>, ghost items: seq<Json>)
      requires Valid()
      modifies this
      ensures var goal := old(G.ParseItems(content, offset, depth, []));
              if ok then Valid() && offset > old(offset) && depth == old(depth) && content[offset] != COMMA
                         && goal == G.AfterItem(content, offset, depth, items)
              else goal.Bad?
      ensures ok ==> Chained(head, current, kids) && StandFor(kids, items) && fresh(Inner(kids, 0))
      decreases |content| - offset, 3
    {
      hide Chain, Inner, Tree, Says, StandFor, Value, G.ParseItems;
      ghost var goal := G.ParseItems(content, offset, depth, []);
      ok, head, current, kids, items := true, null, null, [], [];
      NoTrees();
      NoneStandForNothing();
      var more := true;
      while more
        invariant Valid() && (more || offset > old(offset)) && offset >= old(offset) && depth == old(depth)
        invariant goal == if more then G.ParseItems(content, offset, depth, items)
                  else G.AfterItem(content, offset, depth, items)
        invariant !more ==> content[offset] != COMMA
        invariant Chained(head, current, kids) && StandFor(kids, items) && fresh(Inner(kids, 0)) && fresh(Only(current))
        decreases more, |content| - offset
      {
        ghost var c, v;
        ok, head, current, c, v := ParseItem(head, current, kids, items);
        if !ok {
          return;
        }
        kids, items := kids + [c], items + [v];
        more := content[offset] == COMMA;
        if more {
          offset := offset + 1;
        }
      }
    }

    /** The loop of `parse_object`. */
    method ParseMembers()
        returns (ok: bool, head: Item?, current: Item?, ghost kids: seq<Shape>, ghost members: seq<Member>)
      requires Valid()
      modifies this
      ensures var goal := old(G.ParseMembers(content, offset, depth, []));
              if ok then Valid() && offset > old(offset) && depth == old(depth) && content[offset] != COMMA
                         && goal == G.AfterMember(content, offset, depth, members)
              else goal.Bad?
      ensures ok ==> Chained(head, current, kids) && StandForMembers(kids, members) && fresh(Inner(kids, 0))
      decreases |content| - offset, 3
    {
      hide Chain, Inner, Tree, Says, StandForMembers, Value, G.ParseMembers;
      ghost var goal := G.ParseMembers(content, offset, depth, []);
      ok, head, current, kids, members := true, null, null, [], [];
      NoTrees();
      NoneStandForNothing();
      var more := true;
      while more
        invariant Valid() && (more || offset > old(offset)) && offset >= old(offset) && depth == old(depth)
        invariant goal == if more then G.ParseMembers(content, offset, depth, members)
                          else G.AfterMember(content, offset, depth, members)
        invariant !more ==> content[offset] != COMMA
        invariant Chained(head, current, kids) && StandForMembers(kids, members) && fresh(Inner(kids, 0))
                  && fresh(Only(current))
        decreases more, |content| - offset
      {
        ghost var c, m;
        ok, head, current, c, m := ParseMember(head, current, kids, members);
        if !ok {
          return;
        }
        kids, members := kids + [c], members + [m];
        more := content[offset] == COMMA;
        if more {
          offset := offset + 1;
        }
      }
    }

    /** `parse_array`. */
    method ParseArray(item: Item) returns (ok: bool, ghost sh: Shape)
      requires Valid() && content[offset] == 0x5B
      modifies this, item`child, item`kind
      ensures match G.ParseArray(content, old(offset), old(depth))
              case Bad => !ok
              case Parsed(v, next) => ok && offset == next && depth == old(depth) && Built(item, sh, v)
      ensures ok ==> fresh(Inner(sh.kids, 0))
      decreases |content| - offset, 0
    {
      hide Chain, Inner, Tree, Says, StandFor, Value, List, G.ParseItems, G.SkipWs;
      sh := Shape(item, []);
      if depth >= NESTING_LIMIT {
        return false, sh;
      }
      depth := depth + 1;
      offset := offset + 1;
      SkipWhitespace();
      var head, current := null, null;
      ghost var kids, items: seq<Json> := [], [];
      NoTrees();
      NoneStandForNothing();
      if content[offset] != 0x5D {
        ok, head, current, kids, items := ParseItems();
        if !ok || content[offset] != 0x5D {
          return false, sh;
        }
      }
      depth := depth - 1;
      HungHead(head, kids);
      Finish(item, head, current, KindArray, kids, items, []);
      sh := Shape(item, kids);
      offset := offset + 1;
      return true, sh;
    }

    /** `parse_object`. */
    method ParseObject(item: Item) returns (ok: bool, ghost sh: Shape)
      requires Valid() && content[offset] == 0x7B
      modifies this, item`child, item`kind
      ensures match G.ParseObject(content, old(offset), old(depth))
              case Bad => !ok
              case Parsed(v, next) => ok && offset == next && depth == old(depth) && Built(item, sh, v)
      ensures ok ==> fresh(Inner(sh.kids, 0))
      decreases |content| - offset, 0
    {
      hide Chain, Inner, Tree, Says, StandForMembers, Value, List, G.ParseMembers, G.SkipWs;
      sh := Shape(item, []);
      if depth >= NESTING_LIMIT {
        return false, sh;
      }
      depth := depth + 1;
      offset := offset + 1;
      SkipWhitespace();
      var head, current := null, null;
      ghost var kids, members: seq<Member> := [], [];
      NoTrees();
      NoneStandForNothing();
      if content[offset] != 0x7D {
        ok, head, current, kids, members := ParseMembers();
        if !ok || content[offset] != 0x7D {
          return false, sh;
        }
      }
      depth := depth - 1;
      HungHead(head, kids);
      Finish(item, head, current, KindObject, kids, [], members);
      sh := Shape(item, kids);
      offset := offset + 1;
      return true, sh;
    }
  }

  /** What both do in the end: close the list of children and hang it under the item. */
  method Finish(item: Item, head: Item?, current: Item?, kind: Kind, ghost kids: seq<Shape>, ghost items: seq<Json>,
      ghost members: seq<Member>)
    requires Chained(head, current, kids) && item !in Inner(kids, 0)
    requires if kind == KindArray then StandFor(kids, items) else kind == KindObject && StandForMembers(kids, members)
    modifies item`child, item`kind, Only(head)`prev
    ensures Built(item, Shape(item, kids), if kind == KindArray then Array(items) else Object(members))
  {
    hide Chain, Inner, Tree, Says, List;
    HungHead(head, kids);
    CloseList(head, current, kids);
    item.kind := kind;
    item.child := head;
    TreeOf(item, kids);
    if kind == KindArray {
      ValueOfArray(Shape(item, kids), items);
    } else {
      ValueOfObject(Shape(item, kids), members);
    }
  }

  /** `cJSON_Parse`: a new tree for the value that the grammar reads, or null. */
  method Parse(content: seq<byte>) returns (item: Item?, end: nat, ghost sh: Shape)
    requires G.Terminated(content)
    ensures match G.Parse(content)
            case Bad => item == null
            case Parsed(v, next) => item != null && Built(item, sh, v) && end == next
    ensures item != null ==> fresh(Foot(sh)) && item.next == null && item.prev == null
  {
    var buffer := new ParseBuffer(content);
    var root := new Item.New();
    buffer.SkipBom();
    buffer.SkipWhitespace();
    var ok;
    ok, sh := buffer.ParseValue(root);
    item, end := if ok then root else null, buffer.offset;
  }
}
