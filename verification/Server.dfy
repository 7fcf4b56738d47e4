/**
 The server's event loop as a step system: the pool of DB connections, the waiting list and the
 life of each request.  What the kernel completes next, what the controller asks for and whether
 a DB sender succeeds are left open.
 */
module Server {
  import opened Bytes
  import opened WaitingList

  datatype Event = Accepting | Reading | Writing | Closing | DbResponding

  /** A slot of the request pool; `inFlight` says that the kernel still owes a completion for it. */
  datatype Slot = Free | Live(event: Event, inFlight: bool, conn: Option<nat>)

  /** A connection and a request are named by their places in their pools. */
  datatype State = State(used: seq<bool>, waiting: Waiting, slots: seq<Slot>)

  const DBCONNS_POOL_SIZE := 75
  const REQRES_POOL_SIZE := 4096

  // ---------------------------------------------------------------- connections

  /** The first connection from `i` on that is not marked used; the size of the pool if there is none. */
  function FirstUnused(used: seq<bool>, i: nat): (c: nat)
    requires i <= |used|
    ensures i <= c <= |used| && (c < |used| ==> !used[c]) && forall k :: i <= k < c ==> used[k]
    decreases |used| - i
  {
    if i < |used| && used[i] then FirstUnused(used, i + 1) else i
  }

  function CountUnused(used: seq<bool>, i: nat): nat
    requires i <= |used|
    decreases |used| - i
  {
    if i == |used| then 0 else (if used[i] then 0 else 1) + CountUnused(used, i + 1)
  }

  function SetSlot(s: State, r: nat, slot: Slot): State
  {
    if r < |s.slots| then s.(slots := s.slots[r := slot]) else s
  }

  function Mark(s: State, c: nat, used: bool): State
  {
    if c < |s.used| then s.(used := s.used[c := used]) else s
  }

  // ---------------------------------------------------------------- dispatch

  /** The loop of `queu_dispatch` with connection `c` in hand; `sends` are the requests whose sender succeeds. */
  function DispatchWith(s: State, c: nat, sends: set<nat>): State
    requires c < |s.used|
    decreases |s.waiting.items|, 0
  {
    if s.waiting.items == [] then Mark(s, c, false)
    else
      var r, rest := s.waiting.items[0], s.(waiting := Pop(s.waiting));
      if r in sends then Dispatch(SetSlot(rest, r, Live(DbResponding, true, Some(c))), sends)
      else DispatchWith(Mark(SetSlot(rest, r, Live(Writing, true, Some(c))), c, false), c, sends)
  }

  /** `queu_dispatch` from a call of `get_dbconn` on. */
  function Dispatch(s: State, sends: set<nat>): State
    decreases |s.waiting.items|, 1
  {
    var c := FirstUnused(s.used, 0);
    if c == |s.used| then s else DispatchWith(Mark(s, c, true), c, sends)
  }

  // ---------------------------------------------------------------- completions

  /** A completion: for which request, whether with an error, and whether its controller asks for the DB. */
  datatype Completion = Completion(r: nat, failed: bool, wantsDb: bool)

  datatype Outcome = Running(state: State) | Stopped

  /** The kernel completes only what it was asked for. */
  predicate Possible(s: State, e: Completion)
  {
    e.r < |s.slots| && s.slots[e.r].Live? && s.slots[e.r].inFlight
  }

  /** The first free slot from `i` on, or the size of the pool. */
  function FirstFree(slots: seq<Slot>, i: nat): (f: nat)
    requires i <= |slots|
    ensures i <= f <= |slots| && (f < |slots| ==> slots[f].Free?)
    decreases |slots| - i
  {
    if i < |slots| && !slots[i].Free? then FirstFree(slots, i + 1) else i
  }

  /** `push_accepting`: the loop stops for good if the pool of requests is exhausted. */
  function NextAccepting(s: State): Outcome
  {
    var f := FirstFree(s.slots, 0);
    if f == |s.slots| then Stopped else Running(SetSlot(s, f, Live(Accepting, true, None)))
  }

  /** One completion in `server_loop`. */
  function Complete(s: State, e: Completion): Outcome
    requires Possible(s, e)
  {
    var slot := s.slots[e.r];
    if e.failed then Running(SetSlot(s, e.r, slot.(inFlight := false)))
    else
      match slot.event
      case Accepting => NextAccepting(SetSlot(s, e.r, slot.(event := Reading)))
      case Reading =>
        if e.wantsDb then Running(SetSlot(s, e.r, slot.(inFlight := false)).(waiting := Push(s.waiting, e.r)))
        else Running(SetSlot(s, e.r, slot.(event := Writing)))
      case DbResponding =>
        var written := SetSlot(s, e.r, slot.(event := Writing));
        Running(if slot.conn.Some? then Mark(written, slot.conn.value, false) else written)
      case Writing => Running(SetSlot(s, e.r, slot.(event := Closing)))
      case Closing => Running(SetSlot(s, e.r, Free))
  }

  // ---------------------------------------------------------------- runs

  /** The state in which the loop starts: one request is being accepted. */
  function Initial(): (s: State)
    ensures |s.used| == DBCONNS_POOL_SIZE && |s.slots| == REQRES_POOL_SIZE
  {
    State(seq(DBCONNS_POOL_SIZE, _ => false), EMPTY,
          seq(REQRES_POOL_SIZE, i => if i == 0 then Live(Accepting, true, None) else Free))
  }

  /**
   A turn of the loop: the requests whose senders succeed in the dispatch, and the completion, unless the wait
   is interrupted.
   */
  datatype Turn = Turn(sends: set<nat>, event: Option<Completion>)

  /** The state after these turns, if the loop gets there. */
  function After(turns: seq<Turn>): Outcome
  {
    if turns == [] then Running(Initial())
    else
      match After(turns[..|turns| - 1])
      case Stopped => Stopped
      case Running(s) =>
        var t := turns[|turns| - 1];
        var w := Dispatch(s, t.sends);
        if t.event.None? then Running(w) else if Possible(w, t.event.value) then Complete(w, t.event.value) else Stopped
  }

  /** The state in which the loop waits after these turns and one more dispatch. */
  function WaitPoint(turns: seq<Turn>, sends: set<nat>): Outcome
  {
    match After(turns)
    case Stopped => Stopped
    case Running(s) => Running(Dispatch(s, sends))
  }
}
