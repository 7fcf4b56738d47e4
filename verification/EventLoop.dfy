/** The event loop's own code, which changes the pools and the waiting list in place. */
module EventLoops {
  import opened Bytes
  import opened WaitingList
  import opened Server
  import opened ServerTheorems

  /** The pools and the waiting list that the event loop changes in place. */
  class EventLoop {
    const used: array<bool>
    const slots: array<Slot>
    const queue: Queue

    ghost predicate Valid()
      reads queue, queue.Repr
    {
      queue.Valid()
    }

    ghost function Now(): State
      reads used, slots, queue
    {
      State(used[..], queue.Contents(), slots[..])
    }

    /** `server_loop` before its first turn. */
    constructor ()
      ensures Valid() && Now() == Initial() && fresh(used) && fresh(slots) && fresh(queue) && queue.Repr == {}
    {
      used := new bool[DBCONNS_POOL_SIZE](_ => false);
      slots := new Slot[REQRES_POOL_SIZE](i => if i == 0 then Live(Accepting, true, None) else Free);
      queue := new Queue();
      new;
      assert used[..] == seq(DBCONNS_POOL_SIZE, _ => false);
      assert slots[..] == seq(REQRES_POOL_SIZE, i => if i == 0 then Live(Accepting, true, None) else Free);
    }

    /** `get_dbconn`. */
    method GetDbconn() returns (found: bool, c: nat)
      modifies used
      ensures var free := FirstUnused(old(used[..]), 0);
              && found == (free < used.Length) && (found ==> c == free)
              && used[..] == if found then old(used[..])[free := true] else old(used[..])
    {
      c := 0;
      while c < used.Length
        invariant c <= used.Length && FirstUnused(used[..], 0) == FirstUnused(used[..], c)
        invariant used[..] == old(used[..])
      {
        if !used[c] {
          used[c] := true;
          return true, c;
        }
        c := c + 1;
      }
      return false, 0;
    }

    /** `release_dbconn`. */
    method ReleaseDbconn(c: nat)
      requires c < used.Length
      modifies used
      ensures used[..] == old(used[..])[c := false]
    {
      used[c] := false;
    }

    /** `init_reqres` and `push_accepting`. */
    method PushAccepting() returns (found: bool)
      requires Valid()
      modifies slots
      ensures match NextAccepting(old(Now()))
              case Stopped => !found
              case Running(s) => found && Now() == s
    {
      var i: nat := 0;
      while i < slots.Length && !slots[i].Free?
        invariant i <= slots.Length && FirstFree(slots[..], 0) == FirstFree(slots[..], i)
      {
        i := i + 1;
      }
      found := i < slots.Length;
      if found {
        slots[i] := Live(Accepting, true, None);
      }
    }

    /** The loop body of `queu_dispatch` for a request whose sender fails. */
    method SenderFailed(r: nat, c: nat)
      requires Valid() && r < slots.Length && c < used.Length
      modifies used, slots
      ensures Valid() && Now() == Mark(SetSlot(old(Now()), r, Live(Writing, true, Some(c))), c, false)
    {
      slots[r] := Live(Writing, true, Some(c));
      ReleaseDbconn(c);
    }

    /**
     The loop body of `queu_dispatch` for a request whose sender succeeds: a connection for the next one, if
     there is one.
     */
    method SenderSucceeded(r: nat, c: nat) returns (found: bool, next: nat)
      requires Valid() && r < slots.Length
      modifies used, slots
      ensures Valid()
      ensures var s := SetSlot(old(Now()), r, Live(DbResponding, true, Some(c)));
              var free := FirstUnused(s.used, 0);
              found == (free < used.Length) && (found ==> next == free)
                && Now() == if found then Mark(s, next, true) else s
    {
      slots[r] := Live(DbResponding, true, Some(c));
      found, next := GetDbconn();
    }

    /** The loop body of `queu_dispatch`, with connection `c` in hand. */
    method DispatchTurn(c: nat, sends: set<nat>) returns (empty: bool, found: bool, next: nat)
      requires Valid() && Inv(Now()) && c < used.Length
      modifies used, slots, queue
      ensures Valid() && Inv(Now()) && queue.Repr == old(queue.Repr)
      ensures empty ==> Now() == old(Now()) && Now().waiting.items == [] && found && next == c
      ensures !empty ==> |Now().waiting.items| < |old(Now()).waiting.items| && (found ==> next < used.Length)
      ensures !empty ==> DispatchWith(old(Now()), c, sends) == if found then DispatchWith(Now(), next, sends) else Now()
    {
      hide Connected, FirstUnused;
      ghost var s := Now();
      var some, r := queue.QueuPop();
      empty, found, next := !some, true, c;
      if some {
        if r !in sends {
          PoppedInv(s, Live(Writing, true, Some(c)));
          MarkedInv(SetSlot(Now(), r, Live(Writing, true, Some(c))), c, false);
          SenderFailed(r, c);
        } else {
          PoppedInv(s, Live(DbResponding, true, Some(c)));
          ghost var sent := SetSlot(Now(), r, Live(DbResponding, true, Some(c)));
          found, next := SenderSucceeded(r, c);
          MarkedInv(sent, next, true);
        }
      }
    }

    /** `queu_dispatch`. */
    method QueuDispatch(sends: set<nat>)
      requires Valid() && Inv(Now())
      modifies used, slots, queue
      ensures Valid() && Inv(Now()) && Now() == Dispatch(old(Now()), sends) && queue.Repr == old(queue.Repr)
    {
      hide Inv;
      ghost var goal := Dispatch(Now(), sends);
      ghost var was := Now();
      var found, c: nat := GetDbconn();
      MarkedInv(was, c, true);
      while found
        invariant Valid() && Inv(Now()) && queue.Repr == old(queue.Repr)
        invariant if found then c < used.Length && DispatchWith(Now(), c, sends) == goal else Now() == goal
        decreases |Now().waiting.items|, found
      {
        var empty;
        empty, found, c := DispatchTurn(c, sends);
        if empty {
          break;
        }
      }
      if found {
        MarkedInv(Now(), c, false);
        ReleaseDbconn(c);
      }
    }

    /** What `server_loop` does with one completion; the loop ends when no request can be accepted any more. */
    method HandleCompletion(e: Completion) returns (running: bool)
      requires Valid() && Inv(Now()) && Possible(Now(), e)
      modifies used, slots, queue, queue.Repr
      ensures Valid() && fresh(queue.Repr - old(queue.Repr))
      ensures match Complete(old(Now()), e)
              case Stopped => !running
              case Running(s) => running && Now() == s && Inv(s)
    {
      ghost var was := Now();
      var slot := slots[e.r];
      running := true;
      if e.failed {
        slots[e.r] := slot.(inFlight := false);
      } else {
        match slot.event
        case Accepting =>
          slots[e.r] := slot.(event := Reading);
          running := PushAccepting();
        case Reading =>
          if !e.wantsDb {
            slots[e.r] := slot.(event := Writing);
          } else {
            slots[e.r] := slot.(inFlight := false);
            queue.QueuPush(e.r);
          }
        case DbResponding =>
          ReleaseDbconn(slot.conn.value);
          slots[e.r] := slot.(event := Writing);
        case Writing =>
          slots[e.r] := slot.(event := Closing);
        case Closing =>
          slots[e.r] := Free;
      }
      if running {
        CompleteKeeps(was, e);
      }
    }

    /** One turn of `server_loop`. */
    method LoopTurn(t: Turn) returns (running: bool)
      requires Valid() && Inv(Now())
      requires t.event.Some? ==> Possible(Dispatch(Now(), t.sends), t.event.value)
      modifies used, slots, queue, queue.Repr
      ensures Valid() && fresh(queue.Repr - old(queue.Repr))
      ensures var w := Dispatch(old(Now()), t.sends);
              var after := if t.event.None? then Running(w) else Complete(w, t.event.value);
              running == after.Running? && (running ==> Now() == after.state && Inv(Now()))
    {
      hide Dispatch, Complete, Inv, Possible;
      QueuDispatch(t.sends);
      running := true;
      if t.event.Some? {
        running := HandleCompletion(t.event.value);
      }
    }

    /** `server_loop` over these turns: a dispatch, and then the completion that the kernel delivers. */
    method ServerLoop(turns: seq<Turn>) returns (running: bool)
      requires Valid() && Now() == Initial() && forall n: nat :: DeliversPossible(turns, n)
      modifies used, slots, queue, queue.Repr
      ensures running <==> After(turns).Running?
      ensures running ==> Valid() && Now() == After(turns).state
    {
      hide After, Dispatch, Complete, Inv, Initial, Possible;
      running := true;
      var n := 0;
      StartsAtInitial();
      assert turns[..0] == [] && turns[..|turns|] == turns;
      while n < |turns| && running
        invariant n <= |turns| && Valid() && fresh(queue.Repr - old(queue.Repr))
        invariant running <==> After(turns[..n]).Running?
        invariant running ==> Now() == After(turns[..n]).state && Inv(Now())
        decreases |turns| - n
      {
        AfterNext(turns, n);
        assert DeliversPossible(turns, n);
        running := LoopTurn(turns[n]);
        n := n + 1;
      }
      if !running {
        StoppedStays(turns, n);
      }
    }
  }

  /** The kernel delivers only what it was asked for. */
  predicate DeliversPossible(turns: seq<Turn>, n: nat)
  {
    n < |turns| && After(turns[..n]).Running? && turns[n].event.Some? ==>
      Possible(Dispatch(After(turns[..n]).state, turns[n].sends), turns[n].event.value)
  }

  lemma {:induction false} StartsAtInitial()
    ensures After([]) == Running(Initial()) && Inv(Initial())
  {
    RunsKeepInv([]);
  }

  lemma {:induction false} AfterNext(turns: seq<Turn>, n: nat)
    requires n < |turns| && After(turns[..n]).Running?
    ensures var w, t := Dispatch(After(turns[..n]).state, turns[n].sends), turns[n];
            After(turns[..n + 1])
            == if t.event.None? then Running(w)
               else if Possible(w, t.event.value) then Complete(w, t.event.value) else Stopped
  {
    assert turns[..n + 1][..n] == turns[..n];
  }

  lemma {:induction false} StoppedStays(turns: seq<Turn>, n: nat)
    requires n <= |turns| && After(turns[..n]).Stopped?
    ensures After(turns).Stopped?
    decreases |turns|
  {
    hide Dispatch, Complete;
    if n < |turns| {
      var last := |turns| - 1;
      assert turns[..last][..n] == turns[..n];
      StoppedStays(turns[..last], n);
    } else {
      assert turns[..n] == turns;
    }
  }
}
