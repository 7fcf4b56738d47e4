/** What holds at the wait points of every run of the event loop, and when connections are exclusive. */
module ServerTheorems {
  import opened Bytes
  import opened WaitingList
  import opened Server

  // ---------------------------------------------------------------- what every step keeps

  /** The requests on the waiting list are distinct, live, being read, and no completion is due for them. */
  predicate GoodWaiting(s: State)
  {
    && WellFormed(s.waiting)
    && (forall k :: 0 <= k < |s.waiting.items| ==> IsWaiting(s, s.waiting.items[k]))
    && (forall j, k :: 0 <= j < k < |s.waiting.items| ==> s.waiting.items[j] != s.waiting.items[k])
  }

  predicate IsWaiting(s: State, r: nat)
  {
    r < |s.slots| && s.slots[r].Live? && s.slots[r].event == Reading && !s.slots[r].inFlight
  }

  /** Request `r` is in the DB and has connection `c`. */
  predicate Holds(s: State, r: nat, c: nat)
  {
    r < |s.slots| && s.slots[r].Live? && s.slots[r].event == DbResponding && s.slots[r].conn == Some(c)
  }

  /** Every request in the DB has a connection of the pool. */
  predicate Connected(s: State)
  {
    forall r :: 0 <= r < |s.slots| && s.slots[r].Live? && s.slots[r].event == DbResponding ==>
      s.slots[r].conn.Some? && s.slots[r].conn.value < |s.used|
  }

  predicate Inv(s: State)
  {
    GoodWaiting(s) && Connected(s)
  }

  /** Nothing waits, or every connection is marked used. */
  predicate Busy(s: State)
  {
    s.waiting.items == [] || forall c :: 0 <= c < |s.used| ==> s.used[c]
  }

  lemma {:induction false} PoppedInv(s: State, slot: Slot)
    requires Inv(s) && s.waiting.items != [] && slot.Live?
    requires slot.event == DbResponding ==> slot.conn.Some? && slot.conn.value < |s.used|
    ensures Inv(SetSlot(s.(waiting := Pop(s.waiting)), s.waiting.items[0], slot))
  {
  }

  lemma {:induction false} MarkedInv(s: State, c: nat, used: bool)
    requires Inv(s)
    ensures Inv(Mark(s, c, used))
  {
  }

  lemma {:induction false} DispatchWithKeeps(s: State, c: nat, sends: set<nat>)
    requires Inv(s) && c < |s.used|
    ensures var w := DispatchWith(s, c, sends); Inv(w) && Busy(w) && |w.used| == |s.used| && |w.slots| == |s.slots|
    decreases |s.waiting.items|, 0
  {
    if s.waiting.items == [] {
    } else {
      var r, rest := s.waiting.items[0], s.(waiting := Pop(s.waiting));
      if r in sends {
        PoppedInv(s, Live(DbResponding, true, Some(c)));
        DispatchKeeps(SetSlot(rest, r, Live(DbResponding, true, Some(c))), sends);
      } else {
        PoppedInv(s, Live(Writing, true, Some(c)));
        DispatchWithKeeps(Mark(SetSlot(rest, r, Live(Writing, true, Some(c))), c, false), c, sends);
      }
    }
  }

  /** A dispatch leaves nothing waiting or no connection unmarked, whichever senders fail. */
  lemma {:induction false} DispatchKeeps(s: State, sends: set<nat>)
    requires Inv(s)
    ensures var w := Dispatch(s, sends); Inv(w) && Busy(w) && |w.used| == |s.used| && |w.slots| == |s.slots|
    decreases |s.waiting.items|, 1
  {
    var c := FirstUnused(s.used, 0);
    if c == |s.used| {
    } else {
      DispatchWithKeeps(Mark(s, c, true), c, sends);
    }
  }

  lemma {:induction false} CompleteKeeps(s: State, e: Completion)
    requires Inv(s) && Possible(s, e) && Complete(s, e).Running?
    ensures var s' := Complete(s, e).state; Inv(s') && |s'.used| == |s.used| && |s'.slots| == |s.slots|
  {
    assert e.r !in s.waiting.items;
    if s.slots[e.r].event == Reading && !e.failed && e.wantsDb {
      PushAppends(s.waiting, e.r);
      PushedAreWaiting(s.waiting, e.r);
    }
  }

  lemma {:induction false} PushedAreWaiting(w: Waiting, r: nat)
    requires WellFormed(w) && r !in w.items && forall j, k :: 0 <= j < k < |w.items| ==> w.items[j] != w.items[k]
    ensures forall k :: 0 <= k < |Push(w, r).items| ==> Push(w, r).items[k] == r || Push(w, r).items[k] in w.items
    ensures forall j, k :: 0 <= j < k < |Push(w, r).items| ==> Push(w, r).items[j] != Push(w, r).items[k]
  {
  }

  lemma {:induction false} RunsKeepInv(turns: seq<Turn>)
    requires After(turns).Running?
    ensures var s := After(turns).state; Inv(s) && |s.used| == DBCONNS_POOL_SIZE && |s.slots| == REQRES_POOL_SIZE
  {
    if turns == [] {
    } else {
      var n := |turns| - 1;
      RunsKeepInv(turns[..n]);
      DispatchKeeps(After(turns[..n]).state, turns[n].sends);
      if turns[n].event.Some? {
        CompleteKeeps(Dispatch(After(turns[..n]).state, turns[n].sends), turns[n].event.value);
      }
    }
  }

  /** At every wait point of every run the list from `first` is empty or all 75 connections are marked used. */
  lemma {:induction false} WaitPointsAreBusy(turns: seq<Turn>, sends: set<nat>)
    requires WaitPoint(turns, sends).Running?
    ensures Busy(WaitPoint(turns, sends).state) && |WaitPoint(turns, sends).state.used| == DBCONNS_POOL_SIZE
  {
    RunsKeepInv(turns);
    DispatchKeeps(After(turns).state, sends);
  }

  // ---------------------------------------------------------------- exclusive connections

  ghost predicate Held(s: State, c: nat) { exists r :: Holds(s, r, c) }

  /** A connection is marked used exactly when a request in the DB holds it, and no two hold the same. */
  ghost predicate Exclusive(s: State)
  {
    && (forall c :: 0 <= c < |s.used| ==> (s.used[c] <==> Held(s, c)))
    && (forall c, r, r' :: Holds(s, r, c) && Holds(s, r', c) ==> r == r')
  }

  /** Among the requests that this many free connections reach, none that fails comes before one that succeeds. */
  predicate Orderly(items: seq<nat>, sends: set<nat>, free: nat)
  {
    forall j, k :: 0 <= j < k < |items| && j < free && items[j] !in sends ==> items[k] !in sends
  }

  predicate AllFail(items: seq<nat>, sends: set<nat>)
  {
    forall k :: 0 <= k < |items| ==> items[k] !in sends
  }

  lemma {:induction false} CountUpdate(used: seq<bool>, i: nat, c: nat)
    requires i <= c < |used| && !used[c]
    ensures CountUnused(used, i) == CountUnused(used[c := true], i) + 1
    decreases c - i
  {
    if i < c {
      CountUpdate(used, i + 1, c);
    } else {
      CountSame(used, i + 1, c);
    }
  }

  lemma {:induction false} CountSame(used: seq<bool>, i: nat, c: nat)
    requires c < i <= |used|
    ensures CountUnused(used, i) == CountUnused(used[c := true], i)
    decreases |used| - i
  {
    if i == |used| {
    } else {
      CountSame(used, i + 1, c);
    }
  }

  lemma {:induction false} CountNone(used: seq<bool>, i: nat)
    requires i <= |used| && FirstUnused(used, i) == |used|
    ensures CountUnused(used, i) == 0
    decreases |used| - i
  {
    if i == |used| {
    } else {
      CountNone(used, i + 1);
    }
  }

  /** The first unused connection is the lowest one. */
  lemma {:induction false} FirstUnusedIs(used: seq<bool>, i: nat, c: nat)
    requires i <= c < |used| && !used[c] && forall k :: i <= k < c ==> used[k]
    ensures FirstUnused(used, i) == c
    decreases c - i
  {
    if i == c {
    } else {
      FirstUnusedIs(used, i + 1, c);
    }
  }

  /** Whoever is in the DB before a dispatch still is after it, with the same connection. */
  lemma {:induction false} HoldersStay(s: State, c: nat, sends: set<nat>, r: nat, held: nat)
    requires Inv(s) && c < |s.used| && Holds(s, r, held)
    ensures Holds(DispatchWith(s, c, sends), r, held)
    decreases |s.waiting.items|, 0
  {
    if s.waiting.items == [] {
    } else {
      var q, rest := s.waiting.items[0], s.(waiting := Pop(s.waiting));
      assert IsWaiting(s, q) && q != r;
      if q in sends {
        PoppedInv(s, Live(DbResponding, true, Some(c)));
        HoldersStayInDispatch(SetSlot(rest, q, Live(DbResponding, true, Some(c))), sends, r, held);
      } else {
        PoppedInv(s, Live(Writing, true, Some(c)));
        HoldersStay(Mark(SetSlot(rest, q, Live(Writing, true, Some(c))), c, false), c, sends, r, held);
      }
    }
  }

  lemma {:induction false} HoldersStayInDispatch(s: State, sends: set<nat>, r: nat, held: nat)
    requires Inv(s) && Holds(s, r, held)
    ensures Holds(Dispatch(s, sends), r, held)
    decreases |s.waiting.items|, 1
  {
    var c := FirstUnused(s.used, 0);
    if c == |s.used| {
    } else {
      HoldersStay(Mark(s, c, true), c, sends, r, held);
    }
  }

  /** Once the connection in hand is held by a request, exclusivity is lost. */
  lemma {:induction false} TaintedDispatch(s: State, c: nat, sends: set<nat>, r: nat)
    requires Inv(s) && c < |s.used| && Holds(s, r, c)
    ensures !Exclusive(DispatchWith(s, c, sends))
    decreases |s.waiting.items|
  {
    if s.waiting.items == [] {
      assert Holds(Mark(s, c, false), r, c) && Held(Mark(s, c, false), c);
    } else {
      var q, rest := s.waiting.items[0], s.(waiting := Pop(s.waiting));
      assert IsWaiting(s, q) && q != r;
      if q in sends {
        var s1 := SetSlot(rest, q, Live(DbResponding, true, Some(c)));
        PoppedInv(s, Live(DbResponding, true, Some(c)));
        HoldersStayInDispatch(s1, sends, r, c);
        HoldersStayInDispatch(s1, sends, q, c);
      } else {
        PoppedInv(s, Live(Writing, true, Some(c)));
        TaintedDispatch(Mark(SetSlot(rest, q, Live(Writing, true, Some(c))), c, false), c, sends, r);
      }
    }
  }

  /**
   After a failure the connection in hand is not marked: exclusivity survives only if every later sender fails
   too.
   */
  lemma {:induction false} UnmarkedDispatch(s: State, c: nat, sends: set<nat>)
    requires Inv(s) && Exclusive(s) && c < |s.used| && !s.used[c] && forall k :: 0 <= k < c ==> s.used[k]
    ensures Exclusive(DispatchWith(s, c, sends)) <==> AllFail(s.waiting.items, sends)
    decreases |s.waiting.items|
  {
    if s.waiting.items == [] {
      assert Mark(s, c, false) == s;
    } else {
      var q, rest := s.waiting.items[0], s.(waiting := Pop(s.waiting));
      if q in sends {
        var s1 := SetSlot(rest, q, Live(DbResponding, true, Some(c)));
        PoppedInv(s, Live(DbResponding, true, Some(c)));
        FirstUnusedIs(s1.used, 0, c);
        TaintedDispatch(Mark(s1, c, true), c, sends, q);
      } else {
        var s1 := SetSlot(rest, q, Live(Writing, true, Some(c)));
        PoppedInv(s, Live(Writing, true, Some(c)));
        FailedIsExclusive(s, Live(Writing, true, Some(c)));
        assert Mark(s1, c, false) == s1;
        UnmarkedDispatch(s1, c, sends);
        assert s.waiting.items == [q] + s1.waiting.items;
      }
    }
  }

  lemma {:induction false} FailedIsExclusive(s: State, slot: Slot)
    requires Inv(s) && Exclusive(s) && s.waiting.items != [] && slot.Live? && slot.event == Writing
    ensures Exclusive(SetSlot(s.(waiting := Pop(s.waiting)), s.waiting.items[0], slot))
  {
    var q := s.waiting.items[0];
    var s1 := SetSlot(s.(waiting := Pop(s.waiting)), q, slot);
    assert IsWaiting(s, q);
    assert forall r, c :: Holds(s1, r, c) <==> Holds(s, r, c);
    forall c | 0 <= c < |s1.used| ensures s1.used[c] <==> Held(s1, c) {
      assert Held(s, c) <==> Held(s1, c);
    }
  }

  /** The request at the head gets connection `c`, which is not marked in `s` but is from now on. */
  lemma {:induction false} SentIsExclusive(s: State, c: nat)
    requires Inv(s) && Exclusive(s) && s.waiting.items != [] && c < |s.used| && !s.used[c]
    ensures Exclusive(Mark(SetSlot(s.(waiting := Pop(s.waiting)), s.waiting.items[0],
            Live(DbResponding, true, Some(c))), c, true))
  {
    var q := s.waiting.items[0];
    var s1 := Mark(SetSlot(s.(waiting := Pop(s.waiting)), q, Live(DbResponding, true, Some(c))), c, true);
    assert IsWaiting(s, q);
    forall r, h ensures Holds(s1, r, h) <==> if r == q then h == c else Holds(s, r, h) { }
    forall h | 0 <= h < |s1.used| ensures s1.used[h] <==> Held(s1, h) {
      if h == c {
        assert Holds(s1, q, c);
      } else if Held(s, h) {
        var r :| Holds(s, r, h);
        assert Holds(s1, r, h);
      }
    }
  }

  /** With a marked connection in hand. */
  lemma {:induction false} MarkedDispatch(s: State, c: nat, sends: set<nat>)
    requires Inv(s) && Exclusive(s) && c == FirstUnused(s.used, 0) < |s.used|
    ensures Exclusive(DispatchWith(Mark(s, c, true), c, sends))
            <==> Orderly(s.waiting.items, sends, CountUnused(s.used, 0))
    decreases |s.waiting.items|, 0
  {
    var m, items := Mark(s, c, true), s.waiting.items;
    CountUpdate(s.used, 0, c);
    if items == [] {
      assert Mark(m, c, false) == s;
    } else if items[0] in sends {
      var s1 := SetSlot(m.(waiting := Pop(m.waiting)), items[0], Live(DbResponding, true, Some(c)));
      SentIsExclusive(s, c);
      assert s1 == Mark(SetSlot(s.(waiting := Pop(s.waiting)), items[0], Live(DbResponding, true, Some(c))), c, true);
      PoppedInv(m, Live(DbResponding, true, Some(c)));
      OrderlyDispatch(s1, sends);
      OrderlyRest(items, sends, CountUnused(m.used, 0));
    } else {
      var s1 := SetSlot(s.(waiting := Pop(s.waiting)), items[0], Live(Writing, true, Some(c)));
      PoppedInv(s, Live(Writing, true, Some(c)));
      FailedIsExclusive(s, Live(Writing, true, Some(c)));
      assert Mark(SetSlot(m.(waiting := Pop(m.waiting)), items[0], Live(Writing, true, Some(c))), c, false) == s1;
      UnmarkedDispatch(s1, c, sends);
      AllFailRest(items, sends, CountUnused(s.used, 0));
    }
  }

  lemma {:induction false} OrderlyRest(items: seq<nat>, sends: set<nat>, free: nat)
    requires items != [] && items[0] in sends
    ensures Orderly(items, sends, free + 1) <==> Orderly(items[1..], sends, free)
  {
    if Orderly(items[1..], sends, free) {
      forall j, k | 0 <= j < k < |items| && j < free + 1 && items[j] !in sends ensures items[k] !in sends {
        assert items[j] == items[1..][j - 1] && items[k] == items[1..][k - 1];
      }
    }
    if Orderly(items, sends, free + 1) {
      forall j, k | 0 <= j < k < |items[1..]| && j < free && items[1..][j] !in sends ensures items[1..][k] !in sends {
        assert items[1..][j] == items[j + 1] && items[1..][k] == items[k + 1];
      }
    }
  }

  lemma {:induction false} AllFailRest(items: seq<nat>, sends: set<nat>, free: nat)
    requires items != [] && items[0] !in sends && free > 0
    ensures Orderly(items, sends, free) <==> AllFail(items[1..], sends)
  {
    if Orderly(items, sends, free) {
      forall k | 0 <= k < |items[1..]| ensures items[1..][k] !in sends {
        assert items[1..][k] == items[k + 1];
      }
    }
    if AllFail(items[1..], sends) {
      forall k | 1 <= k < |items| ensures items[k] !in sends {
        assert items[k] == items[1..][k - 1];
      }
    }
  }

  /**
   A dispatch keeps connections exclusive if and only if no failing sender it reaches comes before a succeeding
   one.
   */
  lemma {:induction false} OrderlyDispatch(s: State, sends: set<nat>)
    requires Inv(s) && Exclusive(s)
    ensures Exclusive(Dispatch(s, sends)) <==> Orderly(s.waiting.items, sends, CountUnused(s.used, 0))
    decreases |s.waiting.items|, 1
  {
    var c := FirstUnused(s.used, 0);
    if c == |s.used| {
      CountNone(s.used, 0);
    } else {
      MarkedDispatch(s, c, sends);
    }
  }

  lemma {:induction false} CompleteKeepsExclusive(s: State, e: Completion)
    requires Inv(s) && Exclusive(s) && Possible(s, e) && Complete(s, e).Running?
    ensures Exclusive(Complete(s, e).state)
  {
    var s', slot := Complete(s, e).state, s.slots[e.r];
    if slot.event == DbResponding && !e.failed {
      var c := slot.conn.value;
      assert Holds(s, e.r, c);
      assert forall r, h :: Holds(s', r, h) <==> Holds(s, r, h) && r != e.r;
      forall h | 0 <= h < |s'.used| ensures s'.used[h] <==> Held(s', h) {
        if h != c && Held(s, h) {
          var r :| Holds(s, r, h);
          assert Holds(s', r, h);
        }
      }
    } else {
      assert forall r, h :: Holds(s', r, h) <==> Holds(s, r, h);
      assert forall h :: Held(s', h) <==> Held(s, h);
    }
  }

  /** In every dispatch of the run. */
  predicate EveryDispatchOrderly(turns: seq<Turn>)
  {
    turns == [] ||
    (EveryDispatchOrderly(turns[..|turns| - 1]) &&
     match After(turns[..|turns| - 1])
     case Stopped => true
     case Running(s) => Orderly(s.waiting.items, turns[|turns| - 1].sends, CountUnused(s.used, 0)))
  }

  /** At every wait point of the run. */
  ghost predicate EveryWaitPointExclusive(turns: seq<Turn>)
  {
    turns == [] ||
    (EveryWaitPointExclusive(turns[..|turns| - 1]) &&
     match WaitPoint(turns[..|turns| - 1], turns[|turns| - 1].sends)
     case Stopped => true
     case Running(s) => Exclusive(s))
  }

  /** Connections are exclusive at every wait point of a run if and only if all its dispatches are orderly. */
  lemma {:induction false} ExclusiveRuns(turns: seq<Turn>)
    ensures EveryWaitPointExclusive(turns) <==> EveryDispatchOrderly(turns)
    ensures EveryDispatchOrderly(turns) && After(turns).Running? ==> Exclusive(After(turns).state)
  {
    if turns == [] {
      assert forall r, c :: !Holds(Initial(), r, c);
    } else {
      var n := |turns| - 1;
      ExclusiveRuns(turns[..n]);
      if EveryDispatchOrderly(turns[..n]) && After(turns[..n]).Running? {
        var s := After(turns[..n]).state;
        RunsKeepInv(turns[..n]);
        OrderlyDispatch(s, turns[n].sends);
        DispatchKeeps(s, turns[n].sends);
        if EveryDispatchOrderly(turns) && After(turns).Running? && turns[n].event.Some? {
          CompleteKeepsExclusive(Dispatch(s, turns[n].sends), turns[n].event.value);
        }
      }
    }
  }

  /** Every request that is waiting when a dispatch of the run starts has a sender that succeeds. */
  predicate NoSenderFails(turns: seq<Turn>)
  {
    turns == [] ||
    (NoSenderFails(turns[..|turns| - 1]) &&
     match After(turns[..|turns| - 1])
     case Stopped => true
     case Running(s) => forall r :: r in s.waiting.items ==> r in turns[|turns| - 1].sends)
  }

  /** So they are in every run in which no sender fails. */
  lemma {:induction false} WithoutFailuresExclusive(turns: seq<Turn>)
    requires NoSenderFails(turns)
    ensures EveryDispatchOrderly(turns) && EveryWaitPointExclusive(turns)
  {
    if turns != [] {
      var n := |turns| - 1;
      WithoutFailuresExclusive(turns[..n]);
      if After(turns[..n]).Running? {
        var items := After(turns[..n]).state.waiting.items;
        forall j | 0 <= j < |items| ensures items[j] in turns[n].sends {
          assert items[j] in items;
        }
      }
    }
    ExclusiveRuns(turns);
  }

  /** After a failed sender the two requests that come next are both sent on the same connection. */
  lemma {:induction false} SharedConnection(s: State, sends: set<nat>)
    requires Inv(s) && |s.waiting.items| >= 3 && FirstUnused(s.used, 0) < |s.used|
    requires s.waiting.items[0] !in sends && s.waiting.items[1] in sends && s.waiting.items[2] in sends
    ensures var w, c := Dispatch(s, sends), FirstUnused(s.used, 0);
            Holds(w, s.waiting.items[1], c) && Holds(w, s.waiting.items[2], c)
              && s.waiting.items[1] != s.waiting.items[2]
  {
    var c, m := FirstUnused(s.used, 0), Mark(s, FirstUnused(s.used, 0), true);
    var failed, sent := Live(Writing, true, Some(c)), Live(DbResponding, true, Some(c));
    var s1 := Mark(SetSlot(m.(waiting := Pop(m.waiting)), s.waiting.items[0], failed), c, false);
    PoppedInv(m, failed);
    assert Dispatch(s, sends) == DispatchWith(s1, c, sends);
    var s2 := SetSlot(s1.(waiting := Pop(s1.waiting)), s.waiting.items[1], sent);
    PoppedInv(s1, sent);
    FirstUnusedIs(s2.used, 0, c);
    assert DispatchWith(s1, c, sends) == DispatchWith(Mark(s2, c, true), c, sends);
    SentNext(Mark(s2, c, true), c, sends, s.waiting.items[1]);
  }

  lemma {:induction false} SentNext(s: State, c: nat, sends: set<nat>, r: nat)
    requires Inv(s) && s.waiting.items != [] && s.waiting.items[0] in sends && c < |s.used| && Holds(s, r, c)
    ensures Holds(DispatchWith(s, c, sends), r, c) && Holds(DispatchWith(s, c, sends), s.waiting.items[0], c)
  {
    var q, sent := s.waiting.items[0], Live(DbResponding, true, Some(c));
    HoldersStay(s, c, sends, r, c);
    PoppedInv(s, sent);
    HoldersStayInDispatch(SetSlot(s.(waiting := Pop(s.waiting)), q, sent), sends, q, c);
  }
}
