/**
 Runs from the start of the event loop that lose what it is meant to keep: one in which two requests
 share a connection, and one in which a request that asked for the DB is never dispatched.
 */
module ServerRuns {
  import opened Bytes
  import opened WaitingList
  import opened Server
  import opened ServerTheorems

  // ---------------------------------------------------------------- steps of a run

  lemma {:induction false} AfterTurn(turns: seq<Turn>, t: Turn)
    requires After(turns).Running?
    ensures var w := Dispatch(After(turns).state, t.sends);
            After(turns + [t])
            == if t.event.None? then Running(w)
               else if Possible(w, t.event.value) then Complete(w, t.event.value) else Stopped
  {
    assert (turns + [t])[..|turns|] == turns;
  }

  lemma {:induction false} AtStart()
    ensures After([]) == Running(Initial())
  {
  }

  /** With nothing waiting, or no connection free, a dispatch changes nothing. */
  lemma {:induction false} BusyDispatch(s: State, sends: set<nat>)
    requires Busy(s)
    ensures Dispatch(s, sends) == s
  {
    var c := FirstUnused(s.used, 0);
    if c < |s.used| {
      assert s.used[c := true][c := false] == s.used;
    }
  }

  /** A request is accepted and read, and asks for the DB. */
  function Ask(r: nat): seq<Turn>
  {
    [Turn({}, Some(Completion(r, false, false))), Turn({}, Some(Completion(r, false, true)))]
  }

  /** The slots up to `r` are taken, and `r` is being accepted. */
  predicate AcceptsNext(s: State, r: nat)
  {
    && r + 1 < |s.slots| && s.slots[r] == Live(Accepting, true, None)
    && (forall i :: 0 <= i < r ==> s.slots[i].Live?) && forall i :: r < i < |s.slots| ==> s.slots[i].Free?
  }

  function Asked(s: State, r: nat): State
    requires r + 1 < |s.slots|
  {
    State(s.used, Push(s.waiting, r), s.slots[r := Live(Reading, false, None)][r + 1 := Live(Accepting, true, None)])
  }

  lemma {:induction false} FirstFreeIs(slots: seq<Slot>, i: nat, f: nat)
    requires i <= f < |slots| && slots[f].Free? && forall k :: i <= k < f ==> slots[k].Live?
    ensures FirstFree(slots, i) == f
    decreases f - i
  {
    if i == f {
    } else {
      FirstFreeIs(slots, i + 1, f);
    }
  }

  /** A request asks for the DB while a dispatch has nothing to do. */
  lemma {:induction false} AskRun(turns: seq<Turn>, s: State, r: nat)
    requires After(turns) == Running(s) && Busy(s) && AcceptsNext(s, r) && r + 2 < |s.slots|
    ensures After(turns + Ask(r)) == Running(Asked(s, r)) && AcceptsNext(Asked(s, r), r + 1)
  {
    hide After, Dispatch, DispatchWith, FirstFree;
    var read := s.slots[r := Live(Reading, true, None)];
    FirstFreeIs(read, 0, r + 1);
    var s1 := State(s.used, s.waiting, read[r + 1 := Live(Accepting, true, None)]);
    BusyDispatch(s, {});
    AfterTurn(turns, Ask(r)[0]);
    assert After(turns + [Ask(r)[0]]) == Running(s1);
    BusyDispatch(s1, {});
    AfterTurn(turns + [Ask(r)[0]], Ask(r)[1]);
    assert turns + [Ask(r)[0]] + [Ask(r)[1]] == turns + Ask(r);
    assert s1.slots[r := Live(Reading, false, None)] == Asked(s, r).slots;
  }

  // ---------------------------------------------------------------- all connections in use

  /** The first `n` requests hold the first `n` connections, and the next is being accepted. */
  function Full(n: nat): State
  {
    State(seq(DBCONNS_POOL_SIZE, i => i < n), EMPTY, FullSlots(n))
  }

  function FullSlots(n: nat): (slots: seq<Slot>)
    ensures |slots| == REQRES_POOL_SIZE
  {
    seq(REQRES_POOL_SIZE, i requires 0 <= i =>
      if i < n then Live(DbResponding, true, Some(i)) else if i == n then Live(Accepting, true, None) else Free)
  }

  function FullRun(n: nat): seq<Turn>
  {
    if n == 0 then [] else FullRun(n - 1) + Ask(n - 1) + [Turn({n - 1}, None)]
  }

  lemma {:induction false} SentDispatch(n: nat)
    requires n < DBCONNS_POOL_SIZE
    ensures Dispatch(Asked(Full(n), n), {n}) == Full(n + 1)
  {
    hide FullSlots;
    var s := Asked(Full(n), n);
    FirstUnusedIs(s.used, 0, n);
    var sent := SetSlot(Mark(s, n, true).(waiting := Pop(s.waiting)), n, Live(DbResponding, true, Some(n)));
    assert Dispatch(s, {n}) == Dispatch(sent, {n});
    BusyDispatch(sent, {n});
    FullSlotsNext(n);
    assert sent.used == Full(n + 1).used;
  }

  lemma {:induction false} FullSlotsNext(n: nat)
    requires n + 1 < REQRES_POOL_SIZE
    ensures var asked := FullSlots(n)[n := Live(Reading, false, None)][n + 1 := Live(Accepting, true, None)];
            asked[n := Live(DbResponding, true, Some(n))] == FullSlots(n + 1)
  {
  }

  lemma {:induction false} FullRunReaches(n: nat)
    requires n <= DBCONNS_POOL_SIZE
    ensures After(FullRun(n)) == Running(Full(n)) && AcceptsNext(Full(n), n)
  {
    hide After, Dispatch;
    if n == 0 {
      assert Full(0) == Initial();
      AtStart();
    } else {
      FullRunReaches(n - 1);
      AskRun(FullRun(n - 1), Full(n - 1), n - 1);
      AfterTurn(FullRun(n - 1) + Ask(n - 1), Turn({n - 1}, None));
      SentDispatch(n - 1);
    }
  }

  // ---------------------------------------------------------------- a connection that two requests share

  /** The DB answers the request in slot 0, which gives its connection back. */
  const ANSWERED := Turn({}, Some(Completion(0, false, false)))

  lemma {:induction false} AnsweredRun(turns: seq<Turn>, s: State)
    requires After(turns) == Running(s) && Busy(s) && |s.slots| > 0 && |s.used| > 0
    requires s.slots[0] == Live(DbResponding, true, Some(0))
    ensures After(turns + [ANSWERED])
         == Running(State(s.used[0 := false], s.waiting, s.slots[0 := Live(Writing, true, Some(0))]))
  {
    hide After, Dispatch;
    BusyDispatch(s, {});
    AfterTurn(turns, ANSWERED);
  }

  /** All 75 connections are in use, and requests 75 and 76 wait. */
  function TwoWaitRun(): seq<Turn> { FullRun(75) + Ask(75) + Ask(76) }

  function TwoWait(): State { Asked(Asked(Full(75), 75), 76) }

  lemma {:induction false} TwoWaitReached()
    ensures After(TwoWaitRun()) == Running(TwoWait()) && AcceptsNext(TwoWait(), 77)
    ensures TwoWait().waiting == Waiting([75, 76], TailAt(1)) && Busy(TwoWait())
    ensures |TwoWait().used| == DBCONNS_POOL_SIZE && |TwoWait().slots| == REQRES_POOL_SIZE
    ensures TwoWait().slots[0] == Live(DbResponding, true, Some(0))
  {
    hide After, FullRun, AcceptsNext;
    FullRunReaches(75);
    AskRun(FullRun(75), Full(75), 75);
    AskRun(FullRun(75) + Ask(75), Asked(Full(75), 75), 76);
    assert Asked(Full(75), 75).waiting == Waiting([75], TailAt(0));
  }

  /** Request 77 waits too, and then connection 0 is given back. */
  function SharingRun(): seq<Turn> { TwoWaitRun() + Ask(77) + [ANSWERED] }

  lemma {:induction false} SharingReached()
    ensures After(SharingRun()).Running?
    ensures var s := After(SharingRun()).state;
            && s.waiting.items == [75, 76, 77] && |s.used| == DBCONNS_POOL_SIZE && !s.used[0]
  {
    hide After, TwoWaitRun, TwoWait, AcceptsNext;
    TwoWaitReached();
    AskRun(TwoWaitRun(), TwoWait(), 77);
    AnsweredRun(TwoWaitRun() + Ask(77), Asked(TwoWait(), 77));
  }

  /** A run of the server ends with two requests that wait for the DB on the same connection: the sender of 75 fails. */
  lemma {:induction false} SharedConnectionReached()
    ensures WaitPoint(SharingRun(), {76, 77}).Running?
    ensures var w := WaitPoint(SharingRun(), {76, 77}).state; Holds(w, 76, 0) && Holds(w, 77, 0) && !Exclusive(w)
    ensures var turns := SharingRun() + [Turn({76, 77}, None)]; After(turns).Running? && !EveryDispatchOrderly(turns)
  {
    hide SharingRun, After, Dispatch, Inv;
    SharingReached();
    RunsKeepInv(SharingRun());
    var s, turns := After(SharingRun()).state, SharingRun() + [Turn({76, 77}, None)];
    FirstUnusedIs(s.used, 0, 0);
    SharedConnection(s, {76, 77});
    AfterTurn(SharingRun(), Turn({76, 77}, None));
    assert turns[..|turns| - 1] == SharingRun();
    NotOrderly(s);
  }

  lemma {:induction false} NotOrderly(s: State)
    requires s.waiting.items == [75, 76, 77] && FirstUnused(s.used, 0) == 0 < |s.used|
    ensures !Orderly(s.waiting.items, {76, 77}, CountUnused(s.used, 0))
  {
    CountUpdate(s.used, 0, 0);
    var items := s.waiting.items;
    assert items[0] !in {76, 77} && items[1] in {76, 77};
  }

  // ---------------------------------------------------------------- requests that are never dispatched

  /** The elements of a list. */
  function Members(items: seq<nat>): set<nat> { set r | r in items }

  /** The requests that have asked for the DB and that no dispatch has taken since. */
  function Undispatched(turns: seq<Turn>): set<nat>
  {
    if turns == [] then {}
    else
      match After(turns[..|turns| - 1])
      case Stopped => {}
      case Running(s) =>
        var t := turns[|turns| - 1];
        var w := Dispatch(s, t.sends);
        var before := Undispatched(turns[..|turns| - 1]) - (Members(s.waiting.items) - Members(w.waiting.items));
        if t.event.Some? && Asks(w, t.event.value) then before + {t.event.value.r} else before
  }

  /** The completion with which a request goes onto the waiting list. */
  predicate Asks(s: State, e: Completion)
  {
    Possible(s, e) && !e.failed && s.slots[e.r].event == Reading && e.wantsDb
  }

  /** Every request that asked for the DB in the run was put at the end of the list. */
  predicate PushesSafe(turns: seq<Turn>)
  {
    turns == [] ||
    (PushesSafe(turns[..|turns| - 1]) &&
     match After(turns[..|turns| - 1])
     case Stopped => true
     case Running(s) =>
       var t := turns[|turns| - 1];
       t.event.Some? && Asks(Dispatch(s, t.sends), t.event.value) ==> PushIsSafe(Dispatch(s, t.sends).waiting))
  }

  /** A dispatch takes requests from the front of the list, and touches no other. */
  lemma {:induction false} DispatchWithTakes(s: State, c: nat, sends: set<nat>, r: nat)
    requires Inv(s) && c < |s.used|
    ensures var w := DispatchWith(s, c, sends);
            && Members(w.waiting.items) <= Members(s.waiting.items)
            && (r < |s.slots| == |w.slots| && r !in s.waiting.items ==> w.slots[r] == s.slots[r])
    decreases |s.waiting.items|, 0
  {
    if s.waiting.items == [] {
    } else {
      var q, rest := s.waiting.items[0], s.(waiting := Pop(s.waiting));
      if q in sends {
        PoppedInv(s, Live(DbResponding, true, Some(c)));
        DispatchTakes(SetSlot(rest, q, Live(DbResponding, true, Some(c))), sends, r);
      } else {
        PoppedInv(s, Live(Writing, true, Some(c)));
        DispatchWithTakes(Mark(SetSlot(rest, q, Live(Writing, true, Some(c))), c, false), c, sends, r);
      }
    }
  }

  lemma {:induction false} DispatchTakes(s: State, sends: set<nat>, r: nat)
    requires Inv(s)
    ensures var w := Dispatch(s, sends);
            && Members(w.waiting.items) <= Members(s.waiting.items)
            && (r < |s.slots| == |w.slots| && r !in s.waiting.items ==> w.slots[r] == s.slots[r])
    decreases |s.waiting.items|, 1
  {
    var c := FirstUnused(s.used, 0);
    if c == |s.used| {
    } else {
      DispatchWithTakes(Mark(s, c, true), c, sends, r);
    }
  }

  /** These requests have asked for the DB, and those on the list are among them. */
  predicate Owed(s: State, asked: set<nat>)
  {
    Members(s.waiting.items) <= asked && forall r :: r in asked ==> IsWaiting(s, r)
  }

  lemma {:induction false} DispatchOwes(s: State, sends: set<nat>, asked: set<nat>)
    requires Inv(s) && Owed(s, asked)
    ensures var w := Dispatch(s, sends);
            var left := asked - (Members(s.waiting.items) - Members(w.waiting.items));
            && Owed(w, left) && Members(w.waiting.items) <= Members(s.waiting.items)
            && (left == Members(w.waiting.items) <==> asked == Members(s.waiting.items))
  {
    hide Dispatch, DispatchWith;
    var w := Dispatch(s, sends);
    var left := asked - (Members(s.waiting.items) - Members(w.waiting.items));
    DispatchKeeps(s, sends);
    DispatchTakes(s, sends, 0);
    forall r | r in left ensures IsWaiting(w, r) {
      if r in w.waiting.items {
        var k :| 0 <= k < |w.waiting.items| && w.waiting.items[k] == r;
        assert IsWaiting(w, w.waiting.items[k]);
      } else {
        DispatchTakes(s, sends, r);
        StillWaiting(s, w, r);
      }
    }
    if asked != Members(s.waiting.items) {
      var r :| r in asked && r !in Members(s.waiting.items);
      assert r in left && r !in Members(w.waiting.items);
    }
  }

  lemma {:induction false} StillWaiting(s: State, w: State, r: nat)
    requires IsWaiting(s, r) && |w.slots| == |s.slots| && w.slots[r] == s.slots[r]
    ensures IsWaiting(w, r)
  {
  }

  /** A safe push adds the request to those on the list; another one leaves out it or one that was there. */
  lemma {:induction false} PushLeavesOut(w: Waiting, r: nat)
    requires WellFormed(w) && r !in w.items && forall j, k :: 0 <= j < k < |w.items| ==> w.items[j] != w.items[k]
    ensures Members(Push(w, r).items) <= Members(w.items) + {r}
    ensures Members(Push(w, r).items) == Members(w.items) + {r} <==> PushIsSafe(w)
  {
    PushedAreWaiting(w, r);
    PushAppends(w, r);
    var after := Push(w, r).items;
    if PushIsSafe(w) {
      forall x | x in w.items ensures x in after {
        var k :| 0 <= k < |w.items| && w.items[k] == x;
        assert after[k] == x;
      }
      assert after[|w.items|] == r;
    } else if w.tail.TailAt? {
      var last := w.items[|w.items| - 1];
      assert last in Members(w.items) && last !in after;
    } else {
      assert r !in after;
    }
  }

  lemma {:induction false} CompleteOwes(w: State, e: Completion, asked: set<nat>)
    requires Inv(w) && Owed(w, asked) && Possible(w, e) && Complete(w, e).Running?
    ensures var s, owed := Complete(w, e).state, if Asks(w, e) then asked + {e.r} else asked;
            && Owed(s, owed) && Members(s.waiting.items) <= Members(w.waiting.items) + {e.r}
            && (owed == Members(s.waiting.items)
              <==> asked == Members(w.waiting.items) && (Asks(w, e) ==> PushIsSafe(w.waiting)))
  {
    var s, owed := Complete(w, e).state, if Asks(w, e) then asked + {e.r} else asked;
    assert e.r !in asked && e.r !in w.waiting.items;
    forall r | r in owed ensures IsWaiting(s, r) {
      assert r == e.r || IsWaiting(w, r);
    }
    if Asks(w, e) {
      PushLeavesOut(w.waiting, e.r);
      if asked != Members(w.waiting.items) {
        var r :| r in asked && r !in Members(w.waiting.items);
        assert r in owed && r !in Members(s.waiting.items);
      } else if !PushIsSafe(w.waiting) {
        assert owed != Members(s.waiting.items);
      }
    }
  }

  /** In every run the undispatched requests are exactly the waiting ones if and only if every push was safe. */
  lemma {:induction false} UndispatchedAreWaiting(turns: seq<Turn>)
    requires After(turns).Running?
    ensures Owed(After(turns).state, Undispatched(turns))
    ensures Undispatched(turns) == Members(After(turns).state.waiting.items) <==> PushesSafe(turns)
  {
    hide Inv, Owed, Dispatch, Complete, Members, PushIsSafe;
    if turns == [] {
      NothingOwed();
    } else {
      var n := |turns| - 1;
      var s, t := After(turns[..n]).state, turns[n];
      UndispatchedAreWaiting(turns[..n]);
      RunsKeepInv(turns[..n]);
      DispatchOwes(s, t.sends, Undispatched(turns[..n]));
      DispatchKeeps(s, t.sends);
      if t.event.Some? {
        var w := Dispatch(s, t.sends);
        CompleteOwes(w, t.event.value,
          Undispatched(turns[..n]) - (Members(s.waiting.items) - Members(w.waiting.items)));
      }
    }
  }

  lemma {:induction false} NothingOwed()
    ensures Owed(Initial(), {}) && {} == Members(Initial().waiting.items)
  {
  }

  /** A request that is owed but not on the list is never dispatched, however the run goes on. */
  lemma {:induction false} LostForever(turns: seq<Turn>, more: seq<Turn>, r: nat)
    requires After(turns).Running? && After(turns + more).Running?
    requires r in Undispatched(turns) && r !in After(turns).state.waiting.items
    ensures r in Undispatched(turns + more) && r !in After(turns + more).state.waiting.items
    decreases |more|
  {
    hide Inv, Dispatch, Complete;
    if more == [] {
      assert turns + more == turns;
    } else {
      var n := |more| - 1;
      var before := turns + more[..n];
      assert (turns + more)[..|turns + more| - 1] == before;
      LostForever(turns, more[..n], r);
      UndispatchedAreWaiting(before);
      RunsKeepInv(before);
      var s, t := After(before).state, more[n];
      DispatchOwes(s, t.sends, Undispatched(before));
      DispatchKeeps(s, t.sends);
      if t.event.Some? {
        var w := Dispatch(s, t.sends);
        var left := Undispatched(before) - (Members(s.waiting.items) - Members(w.waiting.items));
        assert r in left && IsWaiting(w, r);
        CompleteOwes(w, t.event.value, left);
      }
    }
  }

  /** Two requests wait, one of them is dispatched, and request 77 asks for the DB. */
  function LosingRun(): seq<Turn> { TwoWaitRun() + [ANSWERED] + [Turn({75}, None)] + Ask(77) }

  function OneWaits(): State
  {
    State(TwoWait().used, Waiting([76], NoTail),
          TwoWait().slots[0 := Live(Writing, true, Some(0))][75 := Live(DbResponding, true, Some(0))])
  }

  lemma {:induction false} OneWaitsReached()
    ensures After(TwoWaitRun() + [ANSWERED] + [Turn({75}, None)]) == Running(OneWaits())
    ensures OneWaits().waiting == Waiting([76], NoTail) && Busy(OneWaits()) && AcceptsNext(OneWaits(), 77)
            && |OneWaits().slots| == REQRES_POOL_SIZE
  {
    hide After, TwoWaitRun, TwoWait;
    TwoWaitReached();
    var s := State(TwoWait().used[0 := false], TwoWait().waiting, TwoWait().slots[0 := Live(Writing, true, Some(0))]);
    AnsweredRun(TwoWaitRun(), TwoWait());
    AfterTurn(TwoWaitRun() + [ANSWERED], Turn({75}, None));
    FirstUnusedIs(s.used, 0, 0);
    var sent := SetSlot(Mark(s, 0, true).(waiting := Pop(s.waiting)), 75, Live(DbResponding, true, Some(0)));
    assert sent == OneWaits();
    assert Dispatch(s, {75}) == Dispatch(sent, {75});
    BusyDispatch(sent, {75});
  }

  /** In that run request 77 is lost: it asked for the DB, and no continuation ever dispatches it. */
  lemma {:induction false} RequestLost(more: seq<Turn>)
    ensures After(LosingRun()).Running? && !PushesSafe(LosingRun())
    ensures After(LosingRun() + more).Running? ==>
              77 in Undispatched(LosingRun() + more) && 77 !in After(LosingRun() + more).state.waiting.items
  {
    hide After, Undispatched, PushesSafe, TwoWaitRun, OneWaits, AcceptsNext;
    var turns := TwoWaitRun() + [ANSWERED] + [Turn({75}, None)];
    OneWaitsReached();
    AskRun(turns, OneWaits(), 77);
    LastAsks(turns, OneWaits(), 77);
    UndispatchedAreWaiting(LosingRun());
    if After(LosingRun() + more).Running? {
      LostForever(LosingRun(), more, 77);
    }
  }

  lemma {:induction false} LastAsks(turns: seq<Turn>, s: State, r: nat)
    requires After(turns) == Running(s) && Busy(s) && AcceptsNext(s, r) && r + 2 < |s.slots|
    ensures r in Undispatched(turns + Ask(r))
  {
    hide Dispatch, FirstFree;
    var asking := turns + [Ask(r)[0]];
    assert (turns + Ask(r))[..|turns + Ask(r)| - 1] == asking;
    BusyDispatch(s, {});
    AfterTurn(turns, Ask(r)[0]);
    FirstFreeIs(s.slots[r := Live(Reading, true, None)], 0, r + 1);
    BusyDispatch(After(asking).state, {});
  }
}
