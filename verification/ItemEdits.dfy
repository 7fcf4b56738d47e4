/**
 Edits of the child list of a tree, mixed with duplicating and parsing: what any sequence of them
 leaves is a tree again, the trees it took out stay apart from it, and its value is what the same
 edits make of the list of the children's values.
 */
module ItemEdits {
  import opened Bytes
  import opened JsonTree
  import opened ItemList
  import opened ItemTrees
  import opened ItemValues
  import G = JsonGrammar
  import P = JsonParser

  // ---------------------------------------------------------------- trees chosen from a forest

  predicate Within(list: seq<nat>, n: nat)
  {
    forall k :: 0 <= k < |list| ==> list[k] < n
  }

  /** The elements at these places. */
  function Chosen<T>(all: seq<T>, list: seq<nat>): (r: seq<T>)
    requires Within(list, |all|)
    ensures |r| == |list| && forall k :: 0 <= k < |r| ==> r[k] == all[list[k]]
  {
    seq(|list|, k requires 0 <= k < |list| => all[list[k]])
  }

  /** The children of `parent` are the chosen trees of the forest, and the others stand in no list. */
  ghost predicate Planted(parent: Item, forest: seq<Shape>, list: seq<nat>)
    reads parent`child, Inner(forest, 0)
  {
    && parent !in Inner(forest, 0) && Trees(forest) && Within(list, |forest|)
    && List(parent.child, Chosen(Roots(forest), list))
    && forall k | 0 <= k < |forest| && k !in list :: forest[k].root.next == null
  }

  lemma {:induction false} ChosenInside(forest: seq<Shape>, list: seq<nat>, k: nat)
    requires Within(list, |forest|) && k <= |list|
    ensures Inner(Chosen(forest, list), k) <= Inner(forest, 0)
    decreases |list| - k
  {
    if k == |list| {
    } else {
      KidInside(forest, list[k], 0);
      ChosenInside(forest, list, k + 1);
    }
  }

  lemma {:induction false} ChosenTrees(forest: seq<Shape>, list: seq<nat>)
    requires Trees(forest) && Within(list, |forest|) && Distinct(Chosen(Roots(forest), list))
    ensures Trees(Chosen(forest, list)) && Roots(Chosen(forest, list)) == Chosen(Roots(forest), list)
  {
    hide Inner, Tree;
    var kids := Chosen(forest, list);
    forall i: nat, j: nat ensures TwoSeparate(kids, i, j) {
      assert Apart(Chosen(Roots(forest), list), i, j);
      assert i < j < |list| ==> TwoSeparate(forest, list[i], list[j]) && TwoSeparate(forest, list[j], list[i]);
    }
    forall k | 0 <= k < |kids| ensures kids[k].root in Inner(kids, 0) {
      KidInside(kids, k, 0);
    }
  }

  /** `parent` with its children is a tree, and so is each tree that is not chosen, apart from it. */
  lemma {:induction false} PlantedTree(parent: Item, forest: seq<Shape>, list: seq<nat>)
    requires Planted(parent, forest, list)
    ensures Tree(Shape(parent, Chosen(forest, list)))
    ensures forall k :: 0 <= k < |forest| && k !in list ==> Foot(forest[k]) !! Foot(Shape(parent, Chosen(forest, list)))
  {
    hide Inner, Tree;
    var kids := Chosen(forest, list);
    ChosenTrees(forest, list);
    ChosenInside(forest, list, 0);
    TreeOf(parent, kids);
    forall k | 0 <= k < |forest| && k !in list ensures Foot(forest[k]) !! Foot(Shape(parent, kids)) {
      KidInside(forest, k, 0);
      NotAmong(forest, list, k, 0);
    }
  }

  lemma {:induction false} NotAmong(forest: seq<Shape>, list: seq<nat>, k: nat, i: nat)
    requires Trees(forest) && Within(list, |forest|) && k < |forest| && k !in list && i <= |list|
    ensures Foot(forest[k]) !! Inner(Chosen(forest, list), i)
    decreases |list| - i
  {
    hide Tree;
    if i == |list| {
    } else {
      assert TwoSeparate(forest, k, list[i]) && TwoSeparate(forest, list[i], k);
      NotAmong(forest, list, k, i + 1);
    }
  }

  // ---------------------------------------------------------------- one edit of a tree

  /** An edit that puts in the item at this place. */
  function On<T>(all: seq<T>, edit: Edit<nat>): Edit<T>
    requires !edit.Detach? ==> edit.item < |all|
  {
    match edit
    case Append(k) => Append(all[k])
    case Insert(which, k) => Insert(which, all[k])
    case Detach(which) => Detach(which)
    case Replace(which, k) => Replace(which, all[k])
  }

  lemma {:induction false} ApplyChosen<T>(all: seq<T>, list: seq<nat>, edit: Edit<nat>)
    requires Within(list, |all|) && (!edit.Detach? ==> edit.item < |all|)
    ensures Within(Apply(list, edit), |all|)
    ensures Chosen(all, Apply(list, edit)) == Apply(Chosen(all, list), On(all, edit))
  {
  }

  /** What is put in is in the forest, and not among the children at that time. */
  predicate Fits(list: seq<nat>, edit: Edit<nat>, n: nat)
  {
    edit.Detach? || (edit.item < n && edit.item !in list)
  }

  /** A root is among the chosen ones only if its tree is chosen. */
  lemma {:induction false} RootChosen(forest: seq<Shape>, list: seq<nat>, k: nat)
    requires Trees(forest) && Within(list, |forest|) && k < |forest|
    ensures Roots(forest)[k] in Chosen(Roots(forest), list) <==> k in list
  {
    hide Inner, Tree;
    var chosen := Chosen(Roots(forest), list);
    forall j | 0 <= j < |list| && chosen[j] == Roots(forest)[k] ensures list[j] == k {
      assert TwoSeparate(forest, list[j], k) && TwoSeparate(forest, k, list[j]);
      assert forest[k].root in Foot(forest[k]) && forest[list[j]].root in Foot(forest[list[j]]);
    }
    forall j | 0 <= j < |list| && list[j] == k ensures Roots(forest)[k] in chosen {
      assert chosen[j] == Roots(forest)[k];
    }
  }

  /** The children and the roots of the other trees are a list with its pool. */
  lemma {:induction false} PlantedPool(parent: Item, forest: seq<Shape>, list: seq<nat>, pool: set<Item>)
    requires Planted(parent, forest, list) && pool == set item | item in Roots(forest)
    ensures Pooled(parent, Chosen(Roots(forest), list), pool)
  {
    hide Inner, Tree, List;
    var roots := Roots(forest);
    forall item | item in pool && item !in Chosen(roots, list) ensures item.next == null {
      var k :| 0 <= k < |roots| && roots[k] == item;
      RootChosen(forest, list, k);
    }
  }

  lemma {:induction false} PoolPlanted(parent: Item, forest: seq<Shape>, list: seq<nat>, pool: set<Item>)
    requires parent !in Inner(forest, 0) && Trees(forest) && Within(list, |forest|)
    requires pool == (set item | item in Roots(forest)) && Pooled(parent, Chosen(Roots(forest), list), pool)
    ensures Planted(parent, forest, list)
  {
    hide Inner, Tree, List;
    forall k | 0 <= k < |forest| && k !in list ensures forest[k].root.next == null {
      RootChosen(forest, list, k);
      assert forest[k].root == Roots(forest)[k];
    }
  }

  /** One edit of the children of `parent`: all trees stay trees and say what they said. */
  method EditTree(parent: Item, edit: Edit<nat>, handles: seq<Item>, ghost forest: seq<Shape>, ghost list: seq<nat>)
    requires Planted(parent, forest, list) && handles == Roots(forest) && Fits(list, edit, |forest|)
    modifies parent`child, handles`next, handles`prev
    ensures Planted(parent, forest, Apply(list, edit))
    ensures forall k :: 0 <= k < |forest| ==> Says(forest[k]) == old(Says(forest[k]))
  {
    hide Inner, Tree, List, Says, Apply;
    ghost var items := Chosen(handles, list);
    ghost var pool := set item | item in handles;
    PlantedPool(parent, forest, list, pool);
    ApplyChosen(handles, list, edit);
    if !edit.Detach? {
      RootChosen(forest, list, edit.item);
    }
    forall k | 0 <= k < |forest| ensures parent !in Foot(forest[k]) {
      KidInside(forest, k, 0);
    }
    forall k, j | 0 <= k < |forest| && 0 <= j < |forest| ensures handles[j] !in Inner(forest[k].kids, 0) {
      RootOutside(forest, j, k);
    }
    EditOnce(parent, On(handles, edit), items, pool);
    forall k | 0 <= k < |forest| ensures Tree(forest[k]) && Says(forest[k]) == old(Says(forest[k])) {
      assert old(allocated(forest[k])) && old(allocated(Inner(forest[k].kids, 0)));
    }
    PoolPlanted(parent, forest, Apply(list, edit), pool);
  }

  // ---------------------------------------------------------------- sequences of edits, copies and parses

  /** What a program holds: trees by their values, which of them are the children, and which it has freed. */
  datatype Holding = Holding(values: seq<Json>, list: seq<nat>, freed: set<nat>)

  /** An edit of the children, a recursive duplicate of a tree, or a tree parsed from a text. */
  datatype Step = Change(edit: Edit<nat>) | Copy(k: nat) | Read(content: seq<byte>)

  /** The edits take trees that are not among the children, and nothing uses a tree that a replacement freed. */
  predicate Allowed(s: Holding, step: Step)
  {
    match step
    case Change(edit) => Fits(s.list, edit, |s.values|) && (!edit.Detach? ==> edit.item !in s.freed)
    case Copy(k) => k < |s.values| && k !in s.freed
    case Read(content) => G.Terminated(content)
  }

  function Do(s: Holding, step: Step): Holding
    requires Allowed(s, step)
  {
    match step
    case Change(edit) =>
      var freed := if edit.Replace? && 0 <= edit.which < |s.list| then {s.list[edit.which]} else {};
      Holding(s.values, Apply(s.list, edit), s.freed + freed)
    case Copy(k) => s.(values := s.values + [s.values[k]])
    case Read(content) =>
      match G.Parse(content)
      case Bad => s
      case Parsed(v, _) => s.(values := s.values + [v])
  }

  /** What these steps make of `s`, as long as they are allowed. */
  function DoAll(s: Holding, steps: seq<Step>): Option<Holding>
  {
    if steps == [] then Some(s)
    else
      match DoAll(s, steps[..|steps| - 1])
      case None => None
      case Some(before) =>
        if Allowed(before, steps[|steps| - 1]) then Some(Do(before, steps[|steps| - 1])) else None
  }

  /** A run that is allowed is allowed step by step. */
  lemma {:induction false} DoneBefore(s: Holding, steps: seq<Step>, n: nat)
    requires DoAll(s, steps).Some? && n < |steps|
    ensures DoAll(s, steps[..n]).Some? && Allowed(DoAll(s, steps[..n]).value, steps[n])
    ensures DoAll(s, steps[..n + 1]) == Some(Do(DoAll(s, steps[..n]).value, steps[n]))
    decreases |steps|
  {
    hide Do, Allowed;
    var last := |steps| - 1;
    if n == last {
      assert steps[..n + 1] == steps;
    } else {
      assert steps[..last][..n] == steps[..n] && steps[..last][..n + 1] == steps[..n + 1];
      DoneBefore(s, steps[..last], n);
    }
  }

  /** The forest is what the program holds. */
  ghost predicate Holds(parent: Item, forest: seq<Shape>, s: Holding)
    reads parent`child, Inner(forest, 0)
  {
    Planted(parent, forest, s.list) && StandFor(forest, s.values)
  }

  /** The tree of an array is what the chosen values are. */
  lemma {:induction false} HeldTree(parent: Item, forest: seq<Shape>, s: Holding)
    requires Holds(parent, forest, s) && parent.kind == KindArray
    ensures Within(s.list, |s.values|) && Tree(Shape(parent, Chosen(forest, s.list)))
    ensures Value(Shape(parent, Chosen(forest, s.list))) == Array(Chosen(s.values, s.list))
  {
    hide Inner, Tree, Value, List;
    PlantedTree(parent, forest, s.list);
    assert StandFor(Chosen(forest, s.list), Chosen(s.values, s.list));
    ValueOfArray(Shape(parent, Chosen(forest, s.list)), Chosen(s.values, s.list));
  }

  function UpTo(n: nat): (r: seq<nat>)
    ensures |r| == n && forall k :: 0 <= k < n ==> r[k] == k
  {
    seq(n, k requires 0 <= k < n => k)
  }

  /** To start with, the trees are the children of an array. */
  function Start(v: Json): Holding
  {
    match v
    case Array(items) => Holding(items, UpTo(|items|), {})
    case _ => Holding([], [], {})
  }

  lemma {:induction false} TreeHolds(sh: Shape)
    requires Tree(sh) && sh.root.kind == KindArray
    ensures Holds(sh.root, sh.kids, Start(Value(sh)))
  {
    hide Inner, List, SayAll, ItemsOf, Foot;
    var said := SayAll(sh.kids, 0);
    forall k | 0 <= k < |sh.kids| ensures Value(sh).items[k] == Value(sh.kids[k]) {
      SayAllAt(sh.kids, 0, k);
      ItemsOfAt(said, 0, k);
    }
    assert Chosen(Roots(sh.kids), UpTo(|sh.kids|)) == Roots(sh.kids);
  }

  /** A new tree joins the forest. */
  lemma {:induction false} JoinsForest(parent: Item, forest: seq<Shape>, s: Holding, c: Shape)
    requires Holds(parent, forest, s) && Tree(c) && Foot(c) !! Inner(forest, 0) && parent !in Foot(c)
             && c.root.next == null
    ensures Holds(parent, forest + [c], s.(values := s.values + [Value(c)]))
    ensures Roots(forest + [c]) == Roots(forest) + [c.root]
  {
    hide Inner, Tree, Value, Foot, List;
    MoreTrees(forest, c);
    var longer := forest + [c];
    assert longer[|forest|] == c && forall k :: 0 <= k < |forest| ==> longer[k] == forest[k];
    assert Chosen(Roots(longer), s.list) == Chosen(Roots(forest), s.list);
  }

  /** A step that edits the children. */
  method ChangeStep(parent: Item, edit: Edit<nat>, handles: seq<Item>, ghost forest: seq<Shape>, ghost s: Holding)
    requires Holds(parent, forest, s) && handles == Roots(forest) && Fits(s.list, edit, |forest|)
    modifies parent`child, handles`next, handles`prev
    ensures Holds(parent, forest, s.(list := Apply(s.list, edit)))
  {
    hide Inner, Planted, SayAll, ValueOf, Apply;
    EditTree(parent, edit, handles, forest, s.list);
  }

  /** A step that duplicates a tree. */
  method CopyStep(parent: Item, k: nat, handles: seq<Item>, ghost forest: seq<Shape>, ghost s: Holding)
    returns (now: seq<Item>, ghost grown: seq<Shape>)
    requires Holds(parent, forest, s) && handles == Roots(forest) && k < |forest|
    ensures Holds(parent, grown, s.(values := s.values + [s.values[k]])) && now == Roots(grown)
    ensures |now| == |handles| + 1 && now[..|handles|] == handles && fresh(now[|handles|])
  {
    hide Inner, Tree, SayAll, ValueOf, List;
    assert allocated(Inner(forest, 0)) && allocated(Inner(forest[k].kids, 0));
    assert Value(forest[k]) == s.values[k];
    var copy;
    ghost var c;
    copy, c := Duplicate(handles[k], true, forest[k]);
    assert Value(c) == s.values[k];
    JoinsForest(parent, forest, s, c);
    now, grown := handles + [copy], forest + [c];
  }

  /** A step that parses a text. */
  method ReadStep(parent: Item, content: seq<byte>, handles: seq<Item>, ghost forest: seq<Shape>, ghost s: Holding)
    returns (now: seq<Item>, ghost grown: seq<Shape>)
    requires Holds(parent, forest, s) && handles == Roots(forest) && G.Terminated(content)
    ensures Holds(parent, grown, Do(s, Read(content))) && now == Roots(grown)
    ensures |handles| <= |now| <= |handles| + 1 && now[..|handles|] == handles
    ensures |handles| < |now| ==> fresh(now[|handles|])
  {
    hide Inner, Tree, Value, List, G.ParseValue;
    assert allocated(Inner(forest, 0));
    now, grown := handles, forest;
    var item, end;
    ghost var c;
    item, end, c := P.Parse(content);
    if item != null {
      JoinsForest(parent, forest, s, c);
      now, grown := handles + [item], forest + [c];
    }
  }

  /** One step. */
  method PerformStep(parent: Item, step: Step, handles: seq<Item>, ghost forest: seq<Shape>, ghost s: Holding)
    returns (now: seq<Item>, ghost grown: seq<Shape>)
    requires Holds(parent, forest, s) && handles == Roots(forest) && Allowed(s, step)
    modifies parent`child, handles`next, handles`prev
    ensures Holds(parent, grown, Do(s, step)) && now == Roots(grown) && |handles| <= |now|
    ensures forall k :: 0 <= k < |now| ==> if k < |handles| then now[k] == handles[k] else fresh(now[k])
  {
    hide Inner, Tree, Planted, Value, List, Apply;
    now, grown := handles, forest;
    match step
    case Change(edit) => ChangeStep(parent, edit, handles, forest, s);
    case Copy(k) => now, grown := CopyStep(parent, k, handles, forest, s);
    case Read(content) => now, grown := ReadStep(parent, content, handles, forest, s);
  }

  /** Any sequence of edits, copies and parses on the children of an array leaves a tree of the value they stand for. */
  method Perform(parent: Item, steps: seq<Step>, children: seq<Item>, ghost sh: Shape)
    returns (handles: seq<Item>, ghost forest: seq<Shape>)
    requires Tree(sh) && sh.root == parent && parent.kind == KindArray && children == Roots(sh.kids)
    requires DoAll(Start(Value(sh)), steps).Some?
    modifies parent`child, children`next, children`prev
    ensures handles == Roots(forest)
    ensures var s := DoAll(Start(old(Value(sh))), steps).value;
            && Holds(parent, forest, s) && Within(s.list, |s.values|)
            && var tree := Shape(parent, Chosen(forest, s.list));
               Tree(tree) && Value(tree) == Array(Chosen(s.values, s.list))
  {
    hide Inner, Tree, Value, Do, List, Holds;
    ghost var start := Start(Value(sh));
    TreeHolds(sh);
    handles, forest := children, sh.kids;
    assert steps[..|steps|] == steps;
    for n := 0 to |steps|
      invariant DoAll(start, steps[..n]).Some? && Holds(parent, forest, DoAll(start, steps[..n]).value)
      invariant handles == Roots(forest)
      invariant forall k :: 0 <= k < |handles| ==> handles[k] in children || fresh(handles[k])
    {
      DoneBefore(start, steps, n);
      handles, forest := PerformStep(parent, steps[n], handles, forest, DoAll(start, steps[..n]).value);
    }
    HeldTree(parent, forest, DoAll(start, steps).value);
  }
}
