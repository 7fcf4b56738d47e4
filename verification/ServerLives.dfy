/**
 The life of a request over whole runs: what its slot says is told from what the kernel has completed for
 it, and every request that is read is answered before its connection is closed.
 */
module ServerLives {
  import opened Bytes
  import opened WaitingList
  import opened Server
  import opened ServerTheorems
  import opened ServerRuns

  // ---------------------------------------------------------------- histories

  /** Which operation of the request in slot `r` this completion ends, if it does and succeeds. */
  function Ends(s: State, e: Option<Completion>, r: nat): Option<Event>
  {
    if e.Some? && e.value.r == r && !e.value.failed && Possible(s, e.value) then Some(s.slots[r].event) else None
  }

  /** The operations that have succeeded for slot `r`, in order. */
  function History(turns: seq<Turn>, r: nat): seq<Event>
  {
    if turns == [] then []
    else
      var n := |turns| - 1;
      match WaitPoint(turns[..n], turns[n].sends)
      case Stopped => History(turns[..n], r)
      case Running(w) =>
        if Ends(w, turns[n].event, r).Some? then History(turns[..n], r) + [Ends(w, turns[n].event, r).value]
        else History(turns[..n], r)
  }

  /** Which operation may come next: accept, read, perhaps the DB's answer, write, close. */
  predicate Succeeds(before: Event, event: Event)
  {
    match event
    case Accepting => before == Closing
    case Reading => before == Accepting
    case DbResponding => before == Reading
    case Writing => before == Reading || before == DbResponding
    case Closing => before == Writing
  }

  predicate Follows(h: seq<Event>)
  {
    forall k :: 0 <= k < |h| ==> InPlace(h, k)
  }

  predicate InPlace(h: seq<Event>, k: nat)
    requires k < |h|
  {
    if k == 0 then h[0] == Accepting else Succeeds(h[k - 1], h[k])
  }

  /** What a slot may say after these operations. */
  predicate Fits(slot: Slot, h: seq<Event>)
  {
    if slot.Free? then h == [] || h[|h| - 1] == Closing
    else if slot.event == Accepting then h == [] || h[|h| - 1] == Closing
    else h != [] && (Succeeds(h[|h| - 1], slot.event) || (!slot.inFlight && slot.event == Reading == h[|h| - 1]))
  }

  /** A request that is in flight can only end the operation that comes next. */
  lemma {:induction false} FitsNext(slot: Slot, h: seq<Event>)
    requires Follows(h) && slot.Live? && Fits(slot, h) && (slot.event == Reading ==> h[|h| - 1] == Accepting)
    ensures Follows(h + [slot.event])
  {
    forall k | 0 <= k < |h + [slot.event]| ensures InPlace(h + [slot.event], k) {
      if k < |h| {
        assert InPlace(h, k);
      }
    }
  }

  // ---------------------------------------------------------------- what a turn does to a slot

  /** A request that a dispatch takes is sent to the DB, or answered with an error if its sender fails. */
  predicate Taken(slot: Slot, r: nat, sends: set<nat>)
  {
    slot.Live? && slot.inFlight && slot.event == if r in sends then DbResponding else Writing
  }

  lemma {:induction false} DispatchWithSlot(s: State, c: nat, sends: set<nat>, r: nat)
    requires Inv(s) && c < |s.used| && r < |s.slots|
    ensures var w := DispatchWith(s, c, sends);
            && |w.slots| == |s.slots|
            && (w.slots[r] == s.slots[r] || (r in s.waiting.items && Taken(w.slots[r], r, sends)))
            && (r in s.waiting.items ==> r in w.waiting.items || Taken(w.slots[r], r, sends))
    decreases |s.waiting.items|, 0
  {
    hide Taken;
    if s.waiting.items != [] {
      var q, rest := s.waiting.items[0], s.(waiting := Pop(s.waiting));
      var sent, failed := Live(DbResponding, true, Some(c)), Live(Writing, true, Some(c));
      assert q in s.waiting.items && (r in s.waiting.items ==> r == q || r in Pop(s.waiting).items);
      TakenSlots(q, c, sends);
      if q in sends {
        PoppedInv(s, sent);
        var s1 := SetSlot(rest, q, sent);
        assert q !in s1.waiting.items;
        DispatchSlot(s1, sends, r);
      } else {
        PoppedInv(s, failed);
        var s1 := Mark(SetSlot(rest, q, failed), c, false);
        assert q !in s1.waiting.items;
        DispatchWithSlot(s1, c, sends, r);
      }
    }
  }

  lemma {:induction false} TakenSlots(r: nat, c: nat, sends: set<nat>)
    ensures Taken(Live(if r in sends then DbResponding else Writing, true, Some(c)), r, sends)
  {
  }

  /** A dispatch leaves a slot as it is, or takes its request from the list. */
  lemma {:induction false} DispatchSlot(s: State, sends: set<nat>, r: nat)
    requires Inv(s) && r < |s.slots|
    ensures var w := Dispatch(s, sends);
            && |w.slots| == |s.slots|
            && (w.slots[r] == s.slots[r] || (r in s.waiting.items && Taken(w.slots[r], r, sends)))
            && (r in s.waiting.items ==> r in w.waiting.items || Taken(w.slots[r], r, sends))
    decreases |s.waiting.items|, 1
  {
    hide Taken;
    var c := FirstUnused(s.used, 0);
    if c < |s.used| {
      DispatchWithSlot(Mark(s, c, true), c, sends, r);
    }
  }

  lemma {:induction false} OnListWaits(s: State, r: nat)
    requires Inv(s)
    ensures r in s.waiting.items ==> IsWaiting(s, r)
  {
    if r in s.waiting.items {
      var k :| 0 <= k < |s.waiting.items| && s.waiting.items[k] == r;
      assert IsWaiting(s, s.waiting.items[k]);
    }
  }

  lemma {:induction false} DispatchFits(s: State, sends: set<nat>, r: nat, h: seq<Event>)
    requires Inv(s) && r < |s.slots| && Fits(s.slots[r], h)
    requires s.slots[r].Live? && s.slots[r].event == Reading && !s.slots[r].inFlight && r in s.waiting.items ==>
               h != [] && h[|h| - 1] == Reading
    ensures var w := Dispatch(s, sends); |w.slots| == |s.slots| && Fits(w.slots[r], h)
  {
    DispatchSlot(s, sends, r);
    OnListWaits(s, r);
  }

  /** A completion moves the slot of its request on, takes a free slot for the next request, and touches no other. */
  lemma {:induction false} CompleteSlot(w: State, e: Completion, r: nat)
    requires Possible(w, e) && Complete(w, e).Running? && r < |w.slots|
    ensures var s := Complete(w, e).state;
            && |s.slots| == |w.slots|
            && (r != e.r ==>
                 s.slots[r] == w.slots[r] || (w.slots[r].Free? && s.slots[r] == Live(Accepting, true, None)))
            && (r == e.r ==> s.slots[r] == NextSlot(w.slots[r], e))
  {
  }

  /** What becomes of the slot of a completion's request. */
  function NextSlot(slot: Slot, e: Completion): Slot
    requires slot.Live?
  {
    if e.failed then slot.(inFlight := false)
    else
      match slot.event
      case Accepting => slot.(event := Reading)
      case Reading => if e.wantsDb then slot.(inFlight := false) else slot.(event := Writing)
      case DbResponding => slot.(event := Writing)
      case Writing => slot.(event := Closing)
      case Closing => Free
  }

  // ---------------------------------------------------------------- the life cycle, over every run

  /** The slot fits its history; a request on the waiting list has been read last. */
  predicate Lives(s: State, r: nat, h: seq<Event>)
  {
    && r < |s.slots| && Follows(h) && Fits(s.slots[r], h)
    && (r in s.waiting.items ==> h != [] && h[|h| - 1] == Reading)
  }

  lemma {:induction false} DispatchLives(s: State, sends: set<nat>, r: nat, h: seq<Event>)
    requires Inv(s) && Lives(s, r, h)
    ensures Lives(Dispatch(s, sends), r, h)
  {
    hide Dispatch, Follows;
    DispatchFits(s, sends, r, h);
    DispatchTakes(s, sends, r);
    assert r in Dispatch(s, sends).waiting.items ==> r in Members(Dispatch(s, sends).waiting.items);
  }

  lemma {:induction false} WaitingAfter(w: State, e: Completion, r: nat)
    requires Inv(w) && Possible(w, e) && Complete(w, e).Running?
    ensures e.r !in w.waiting.items
    ensures r in Complete(w, e).state.waiting.items ==> r in w.waiting.items || (r == e.r && Asks(w, e))
  {
    OnListWaits(w, e.r);
    if Asks(w, e) {
      PushedAreWaiting(w.waiting, e.r);
    }
  }

  lemma {:induction false} CompleteLives(w: State, e: Completion, r: nat, h: seq<Event>)
    requires Inv(w) && Lives(w, r, h) && Possible(w, e) && Complete(w, e).Running?
    ensures var done := Ends(w, Some(e), r); Lives(Complete(w, e).state, r, if done.Some? then h + [done.value] else h)
  {
    hide Inv, Complete, Follows;
    CompleteSlot(w, e, r);
    WaitingAfter(w, e, r);
    if r == e.r && !e.failed {
      FitsNext(w.slots[r], h);
    }
  }

  lemma {:induction false} StartLives(r: nat)
    requires r < REQRES_POOL_SIZE
    ensures Lives(Initial(), r, [])
  {
  }

  /** In every run the operations of every slot follow the life cycle, and the slot says which one comes next. */
  lemma {:induction false} LifeCycle(turns: seq<Turn>, r: nat)
    requires After(turns).Running? && r < REQRES_POOL_SIZE
    ensures r < |After(turns).state.slots|
    ensures var slot, h := After(turns).state.slots[r], History(turns, r);
            Lives(After(turns).state, r, h) && Follows(h) && Fits(slot, h)
  {
    hide Inv, Dispatch, Complete, Lives, Ends;
    if turns == [] {
      StartLives(r);
    } else {
      var n := |turns| - 1;
      var s, t := After(turns[..n]).state, turns[n];
      LifeCycle(turns[..n], r);
      RunsKeepInv(turns[..n]);
      DispatchLives(s, t.sends, r, History(turns[..n], r));
      DispatchKeeps(s, t.sends);
      if t.event.Some? {
        CompleteLives(Dispatch(s, t.sends), t.event.value, r, History(turns[..n], r));
      } else {
        NothingEnds(Dispatch(s, t.sends), r);
      }
    }
    LivesFits(After(turns).state, r, History(turns, r));
  }

  lemma {:induction false} NothingEnds(w: State, r: nat)
    ensures Ends(w, None, r).None?
  {
  }

  lemma {:induction false} LivesFits(s: State, r: nat, h: seq<Event>)
    requires Lives(s, r, h)
    ensures r < |s.slots| && Follows(h) && Fits(s.slots[r], h)
  {
  }

  /** A connection is closed only behind its response, and a slot is reused only behind a close. */
  lemma {:induction false} ClosedAfterWrite(turns: seq<Turn>, r: nat)
    requires After(turns).Running? && r < REQRES_POOL_SIZE
    ensures r < |After(turns).state.slots|
    ensures var slot, h := After(turns).state.slots[r], History(turns, r);
            && (slot.Live? && slot.event == Closing ==> h != [] && h[|h| - 1] == Writing)
            && (slot.Free? && h != [] ==> h[|h| - 1] == Closing)
            && forall k :: 0 < k < |h| ==>
                 (h[k] == Accepting ==> h[k - 1] == Closing) && (h[k] == Closing ==> h[k - 1] == Writing)
  {
    LifeCycle(turns, r);
    var h := History(turns, r);
    forall k | 0 < k < |h|
      ensures (h[k] == Accepting ==> h[k - 1] == Closing) && (h[k] == Closing ==> h[k - 1] == Writing)
    {
      assert InPlace(h, k);
    }
  }

  // ---------------------------------------------------------------- every request that is read is answered

  /** No completion of these turns is for `r`. */
  predicate Elsewhere(turns: seq<Turn>, r: nat)
  {
    forall k :: 0 <= k < |turns| ==> NotFor(turns[k], r)
  }

  predicate NotFor(t: Turn, r: nat)
  {
    t.event.Some? ==> t.event.value.r != r
  }

  /** This turn brings a successful completion for `r`, whose controller does not ask for the DB. */
  predicate Succeeded(t: Turn, r: nat)
  {
    t.event == Some(Completion(r, false, false))
  }

  /** Slot `r` waits for the completion of this operation. */
  predicate Doing(o: Outcome, r: nat, event: Event)
  {
    o.Running? && r < |o.state.slots| && o.state.slots[r].Live? && o.state.slots[r].inFlight
    && o.state.slots[r].event == event
  }

  lemma {:induction false} InFlightStays(s: State, sends: set<nat>, r: nat)
    requires Inv(s) && r < |s.slots| && s.slots[r].Live? && s.slots[r].inFlight
    ensures var w := Dispatch(s, sends); r < |w.slots| && w.slots[r] == s.slots[r]
  {
    hide Dispatch, Taken;
    DispatchSlot(s, sends, r);
    OnListWaits(s, r);
  }

  /** While only others are served, an operation in flight stays in flight. */
  lemma {:induction false} StaysInFlight(turns: seq<Turn>, more: seq<Turn>, r: nat, event: Event)
    requires Doing(After(turns), r, event) && Elsewhere(more, r) && After(turns + more).Running?
    ensures Doing(After(turns + more), r, event)
    decreases |more|
  {
    hide Inv, Dispatch, Complete;
    if more == [] {
      assert turns + more == turns;
    } else {
      var n := |more| - 1;
      var before := turns + more[..n];
      assert (turns + more)[..|turns + more| - 1] == before;
      assert NotFor(more[n], r) && forall k :: 0 <= k < n ==> more[..n][k] == more[k];
      StaysInFlight(turns, more[..n], r, event);
      RunsKeepInv(before);
      InFlightStays(After(before).state, more[n].sends, r);
      if more[n].event.Some? {
        CompleteSlot(Dispatch(After(before).state, more[n].sends), more[n].event.value, r);
      }
    }
  }

  /** The completion of an operation in flight. */
  lemma {:induction false} MovesOn(turns: seq<Turn>, t: Turn, r: nat, event: Event)
    requires Doing(After(turns), r, event) && Succeeded(t, r) && After(turns + [t]).Running?
    ensures var s := After(turns + [t]).state;
            && r < |s.slots| && (event == Closing ==> s.slots[r] == Free)
            && (event == Accepting ==> Doing(After(turns + [t]), r, Reading))
            && (event == Reading || event == DbResponding ==> Doing(After(turns + [t]), r, Writing))
            && (event == Writing ==> Doing(After(turns + [t]), r, Closing))
  {
    hide Inv, Dispatch, Complete, After;
    AfterTurn(turns, t);
    RunsKeepInv(turns);
    InFlightStays(After(turns).state, t.sends, r);
    CompleteSlot(Dispatch(After(turns).state, t.sends), t.event.value, r);
  }

  /**
   From any reachable state a request that has been read, or whose DB answer is due, is written to, then closed
   and then free, with its next three completions, whatever happens to others in between.
   */
  lemma {:induction false} Answered(turns: seq<Turn>, m1: seq<Turn>, t1: Turn, m2: seq<Turn>, t2: Turn, m3: seq<Turn>,
      t3: Turn, r: nat)
    requires Doing(After(turns), r, Reading) || Doing(After(turns), r, DbResponding)
    requires Elsewhere(m1, r) && Elsewhere(m2, r) && Elsewhere(m3, r)
    requires Succeeded(t1, r) && Succeeded(t2, r) && Succeeded(t3, r)
    requires var read := turns + m1; var written := read + [t1] + m2; var closed := written + [t2] + m3;
             && After(read).Running? && After(read + [t1]).Running? && After(written).Running?
             && After(written + [t2]).Running? && After(closed).Running? && After(closed + [t3]).Running?
    ensures var read := turns + m1; var written := read + [t1] + m2; var closed := written + [t2] + m3;
            && Doing(After(read + [t1]), r, Writing) && Doing(After(written), r, Writing)
            && Doing(After(written + [t2]), r, Closing) && Doing(After(closed), r, Closing)
            && r < |After(closed + [t3]).state.slots| && After(closed + [t3]).state.slots[r] == Free
  {
    hide After, Elsewhere, Succeeded, Doing;
    var event := if Doing(After(turns), r, Reading) then Reading else DbResponding;
    var read := turns + m1;
    StaysInFlight(turns, m1, r, event);
    MovesOn(read, t1, r, event);
    StaysInFlight(read + [t1], m2, r, Writing);
    var written := read + [t1] + m2;
    MovesOn(written, t2, r, Writing);
    StaysInFlight(written + [t2], m3, r, Closing);
    MovesOn(written + [t2] + m3, t3, r, Closing);
  }

  /** A request that waits for the DB and that the next dispatch takes gets its answer, or an error response. */
  lemma {:induction false} TakenFromList(turns: seq<Turn>, t: Turn, r: nat)
    requires After(turns).Running? && After(turns + [t]).Running? && NotFor(t, r)
    requires r in After(turns).state.waiting.items
    requires r !in Dispatch(After(turns).state, t.sends).waiting.items
    ensures Doing(After(turns + [t]), r, if r in t.sends then DbResponding else Writing)
  {
    hide Inv, Dispatch, Complete, After;
    var s := After(turns).state;
    AfterTurn(turns, t);
    RunsKeepInv(turns);
    OnListWaits(s, r);
    DispatchSlot(s, t.sends, r);
    if t.event.Some? {
      CompleteSlot(Dispatch(s, t.sends), t.event.value, r);
    }
  }
}
