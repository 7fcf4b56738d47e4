/**
 The list of requests that wait for a DB connection (`queu_push` and `queu_pop`).  Popping sets
 `last` to the second node that is left, so a later push can cut the list or miss it.
 */
module WaitingList {

  /** Where `last` points: nowhere, to the node at `k`, or to a node that `first` does not lead to. */
  datatype Tail = NoTail | TailAt(k: nat) | Detached

  /** The requests that `first` leads to. */
  datatype Waiting = Waiting(items: seq<nat>, tail: Tail)

  const EMPTY := Waiting([], NoTail)

  /** What every push and pop keeps. */
  predicate WellFormed(w: Waiting)
  {
    && (w.tail.TailAt? ==> w.tail.k < |w.items|)
    && (w.items == [] ==> w.tail == NoTail)
  }

  function Push(w: Waiting, r: nat): Waiting
  {
    match w.tail
    case NoTail => if w.items == [] then Waiting([r], TailAt(0)) else Waiting(w.items, Detached)
    case TailAt(k) => if k < |w.items| then Waiting(w.items[..k + 1] + [r], TailAt(k + 1)) else w
    case Detached => w
  }

  function Pop(w: Waiting): Waiting
  {
    if w.items == [] then w
    else Waiting(w.items[1..], if |w.items| > 2 then TailAt(1) else NoTail)
  }

  /** The next push puts its request at the end and loses none. */
  predicate PushIsSafe(w: Waiting)
  {
    w.items == [] || w.tail == TailAt(|w.items| - 1)
  }

  /** A push appends exactly if the list is empty or `last` is its last node, and otherwise a request is lost. */
  lemma {:induction false} PushAppends(w: Waiting, r: nat)
    requires WellFormed(w)
    ensures WellFormed(Push(w, r))
    ensures Push(w, r).items == w.items + [r] <==> PushIsSafe(w)
    ensures !PushIsSafe(w) ==> |Push(w, r).items| <= |w.items|
    ensures PushIsSafe(w) ==> PushIsSafe(Push(w, r))
  {
    if PushIsSafe(w) && w.items != [] {
      assert w.items[..|w.items|] == w.items;
    }
  }

  /** After a pop the next push appends exactly if no request or two are left. */
  lemma {:induction false} PopThenPush(w: Waiting, r: nat)
    requires WellFormed(w) && w.items != []
    ensures WellFormed(Pop(w)) && Pop(w).items == w.items[1..]
    ensures Push(Pop(w), r).items == w.items[1..] + [r] <==> |w.items| == 1 || |w.items| == 3
  {
    PushAppends(Pop(w), r);
  }

  // ---------------------------------------------------------------- runs

  datatype Op = Put(r: nat) | Take

  function Apply(w: Waiting, op: Op): Waiting
  {
    if op.Put? then Push(w, op.r) else Pop(w)
  }

  function Run(w: Waiting, ops: seq<Op>): Waiting
  {
    if ops == [] then w else Apply(Run(w, ops[..|ops| - 1]), ops[|ops| - 1])
  }

  /** The queue that the list is meant to be. */
  function Fifo(ops: seq<Op>): seq<nat>
  {
    if ops == [] then []
    else
      var before, op := Fifo(ops[..|ops| - 1]), ops[|ops| - 1];
      if op.Put? then before + [op.r] else if before == [] then [] else before[1..]
  }

  /** No push of the run comes while `last` is not the last node. */
  predicate Safe(ops: seq<Op>)
  {
    ops == [] || (Safe(ops[..|ops| - 1]) && (ops[|ops| - 1].Put? ==> PushIsSafe(Run(EMPTY, ops[..|ops| - 1]))))
  }

  /** The check at the start of both functions never fires: an empty list has no tail, in every run. */
  lemma {:induction false} FatalIsUnreachable(ops: seq<Op>)
    ensures WellFormed(Run(EMPTY, ops))
  {
    if ops == [] {
    } else {
      var n := |ops| - 1;
      FatalIsUnreachable(ops[..n]);
      if ops[n].Put? {
        PushAppends(Run(EMPTY, ops[..n]), ops[n].r);
      }
    }
  }

  /** A run whose pushes are all safe is first in, first out; the first unsafe push makes the list too short. */
  lemma {:induction false} SafeRunsAreFifo(ops: seq<Op>)
    ensures Safe(ops) ==> Run(EMPTY, ops).items == Fifo(ops)
    ensures ops != [] && Safe(ops[..|ops| - 1]) && !Safe(ops) ==> |Run(EMPTY, ops).items| < |Fifo(ops)|
  {
    if ops == [] {
    } else {
      var n := |ops| - 1;
      FatalIsUnreachable(ops[..n]);
      SafeRunsAreFifo(ops[..n]);
      if ops[n].Put? {
        PushAppends(Run(EMPTY, ops[..n]), ops[n].r);
      }
    }
  }

  /** Two requests wait, one is taken, a third comes: it is never handed out. */
  lemma {:induction false} InterleavingLosesRequest(a: nat, b: nat, c: nat)
    ensures var w := Run(EMPTY, [Put(a), Put(b), Take, Put(c)]);
            w.items == [b] && Pop(w).items == [] && Fifo([Put(a), Put(b), Take, Put(c)]) == [b, c]
  {
    var ops := [Put(a), Put(b), Take, Put(c)];
    assert ops[..3] == [Put(a), Put(b), Take] && ops[..3][..2] == [Put(a), Put(b)] && ops[..2][..1] == [Put(a)];
    assert ops[..1][..0] == [];
    assert Fifo([Put(a)]) == [a];
    assert Fifo([Put(a), Put(b)]) == [a, b];
    assert Fifo([Put(a), Put(b), Take]) == [b];
    assert Run(EMPTY, [Put(a)]) == Waiting([a], TailAt(0));
    assert Run(EMPTY, [Put(a), Put(b)]) == Waiting([a, b], TailAt(1));
  }

  // ---------------------------------------------------------------- the linked list

  /** `QueueItem`; `place` counts the nodes of the list since the program started, and is 0 off the list. */
  class QueueItem {
    var next: QueueItem?
    const item: nat
    ghost var place: nat

    constructor (item: nat, ghost place: nat)
      ensures this.item == item && next == null && this.place == place
    {
      this.item, this.place := item, place;
      next := null;
    }
  }

  function Items(nodes: seq<QueueItem>): (r: seq<nat>)
    ensures |r| == |nodes| && forall k :: 0 <= k < |r| ==> r[k] == nodes[k].item
  {
    seq(|nodes|, k requires 0 <= k < |nodes| => nodes[k].item)
  }

  function NodeAt(nodes: seq<QueueItem>, k: nat): QueueItem? { if k < |nodes| then nodes[k] else null }

  /** The nodes are linked in this order, and no node occurs twice. */
  ghost predicate Linked(nodes: seq<QueueItem>, base: nat)
    reads nodes
  {
    forall i :: 0 <= i < |nodes| ==> nodes[i].next == NodeAt(nodes, i + 1) && nodes[i].place == base + i
  }

  /** The nodes up to `k` are linked and `k` leads to a new node. */
  lemma {:induction false} LinkedLonger(nodes: seq<QueueItem>, base: nat, k: nat, qitem: QueueItem)
    requires k < |nodes| && qitem.next == null && qitem.place == base + k + 1
    requires forall i :: 0 <= i <= k ==>
      nodes[i].next == (if i == k then qitem else NodeAt(nodes, i + 1)) && nodes[i].place == base + i
    ensures Linked(nodes[..k + 1] + [qitem], base)
    ensures Items(nodes[..k + 1] + [qitem]) == Items(nodes)[..k + 1] + [qitem.item]
  {
  }

  /** The globals `first` and `last`; `nodes` are what `first` leads to. */
  class Queue {
    var first: QueueItem?
    var last: QueueItem?
    ghost var nodes: seq<QueueItem>
    ghost var tail: Tail
    ghost var base: nat
    /** The nodes that pushes have made. */
    ghost var Repr: set<QueueItem>

    ghost predicate Valid()
      reads this, Repr
    {
      && (forall n :: n in nodes ==> n in Repr) && (last != null ==> last in Repr)
      && WellFormed(Contents()) && base > 0 && Linked(nodes, base) && first == NodeAt(nodes, 0)
      && match tail
         case NoTail => last == null
         case TailAt(k) => last == nodes[k]
         case Detached => last != null && last.place == 0 && last.next == null
    }

    ghost function Contents(): Waiting
      reads this
    {
      Waiting(Items(nodes), tail)
    }

    constructor ()
      ensures Valid() && Contents() == EMPTY && Repr == {}
    {
      first, last, nodes, tail, base, Repr := null, null, [], NoTail, 1, {};
    }

    /** The place of the node that the next push makes. */
    ghost function NextPlace(): nat
      reads this
    {
      match tail
      case NoTail => if nodes == [] then base else 0
      case TailAt(k) => base + k + 1
      case Detached => 0
    }

    /** Whether the list is as before but for the link from the old last node to the new one. */
    ghost predicate Pushed(qitem: QueueItem)
      reads this, Repr
    {
      && WellFormed(Contents()) && base > 0 && (forall n :: n in nodes ==> n in Repr && n != qitem)
      && qitem in Repr && qitem.next == null && qitem.place == NextPlace() && last == qitem
      && first == (if nodes == [] then qitem else nodes[0])
      && (forall i :: 0 <= i < |nodes| ==> nodes[i].next == if tail == TailAt(i) then qitem else NodeAt(nodes, i + 1))
      && (forall i :: 0 <= i < |nodes| ==> nodes[i].place == base + i)
    }

    ghost method Record(qitem: QueueItem)
      requires Pushed(qitem)
      modifies `nodes, `tail
      ensures Valid() && Contents() == Push(old(Contents()), qitem.item)
    {
      hide Items;
      match tail
      case NoTail =>
        if nodes == [] {
          assert Items([qitem]) == [qitem.item] && Items(nodes) == [];
          nodes, tail := [qitem], TailAt(0);
          assert Linked(nodes, base);
        } else {
          tail := Detached;
          assert Valid();
        }
      case TailAt(k) =>
        LinkedLonger(nodes, base, k, qitem);
        nodes, tail := nodes[..k + 1] + [qitem], TailAt(k + 1);
        assert Linked(nodes, base);
        assert forall n :: n in nodes ==> n in Repr;
        assert Valid();
      case Detached =>
        assert Linked(nodes, base);
        assert Valid();
    }

    /** `queu_push`. */
    method QueuPush(r: nat)
      requires Valid()
      modifies this, Repr
      ensures Valid() && Contents() == Push(old(Contents()), r) && fresh(Repr - old(Repr))
    {
      hide Items;
      assert !(first == null && last != null);
      var qitem := new QueueItem(r, NextPlace());
      Repr := Repr + {qitem};
      if last != null {
        last.next := qitem;
      }
      last := qitem;
      if first == null {
        first := qitem;
      }
      Record(qitem);
    }

    /** `queu_pop`. */
    method QueuPop() returns (found: bool, r: nat)
      requires Valid()
      modifies this
      ensures Valid() && Contents() == Pop(old(Contents())) && Repr == old(Repr)
      ensures found <==> old(Contents()).items != []
      ensures found ==> r == old(Contents()).items[0]
    {
      assert !(first == null && last != null);
      if first == null {
        return false, 0;
      }
      found, r := true, first.item;
      assert first.next == NodeAt(nodes, 1);
      first := first.next;
      if first == null {
        last := null;
      } else {
        last := first.next;
      }
      tail := if |nodes| > 2 then TailAt(1) else NoTail;
      assert forall i :: 0 <= i < |nodes| - 1 ==> nodes[1..][i] == nodes[i + 1];
      nodes, base := nodes[1..], base + 1;
      assert Linked(nodes, base);
    }
  }
}
