/** Runs of calls of the chunked decoder: how the input is cut does not matter, and what the counters count. */
module ChunkedRuns {
  import opened Bytes
  import opened ChunkedDecoder

  // ---------------------------------------------------------------- cutting the input

  lemma {:induction false} RunPrefix(c: Core, t: bool, a: seq<byte>, b: seq<byte>, src: nat, out: seq<byte>)
    requires ValidCore(c) && src <= |a| && |out| <= src
    ensures var r := Run(c, t, a, src, out);
            Run(c, t, a + b, src, out) == if r.verdict == Incomplete then Run(r.core, t, a + b, |a|, r.out) else r
    decreases |a| - src
  {
    if src == |a| {
    } else {
      assert (a + b)[src] == a[src];
      match Step(c, t, a[src])
      case Next(c') => RunPrefix(c', t, a, b, src + 1, out);
      case Emit(c') => RunPrefix(c', t, a, b, src + 1, out + [a[src]]);
      case _ =>
    }
  }

  lemma {:induction false} RunShift(c: Core, t: bool, a: seq<byte>, b: seq<byte>, pre: seq<byte>, src: nat,
      out: seq<byte>)
    requires ValidCore(c) && src <= |b| && |out| <= src && |pre| <= |a|
    ensures var r := Run(c, t, b, src, out);
            Run(c, t, a + b, |a| + src, pre + out) == RunResult(r.core, pre + r.out, |a| + r.used, r.verdict)
    decreases |b| - src
  {
    if src == |b| {
    } else {
      assert (a + b)[|a| + src] == b[src];
      match Step(c, t, b[src])
      case Next(c') => RunShift(c', t, a, b, pre, src + 1, out);
      case Emit(c') =>
        RunShift(c', t, a, b, pre, src + 1, out + [b[src]]);
        assert pre + (out + [b[src]]) == pre + out + [b[src]];
      case _ =>
    }
  }

  /** Feeding `a` and then `b` is feeding `a + b`. */
  lemma {:induction false} RunConcat(c: Core, t: bool, a: seq<byte>, b: seq<byte>)
    requires ValidCore(c)
    ensures var ra, rab := Run(c, t, a, 0, []), Run(c, t, a + b, 0, []);
            if ra.verdict == Incomplete then
              var rb := Run(ra.core, t, b, 0, []);
              rab == RunResult(rb.core, ra.out + rb.out, |a| + rb.used, rb.verdict)
            else rab == ra
  {
    RunPrefix(c, t, a, b, 0, []);
    var ra := Run(c, t, a, 0, []);
    assert ra.out + [] == ra.out && |a| + 0 == |a|;
    if ra.verdict == Incomplete {
      RunShift(ra.core, t, a, b, ra.out, 0, []);
    }
  }

  function Flatten(pieces: seq<seq<byte>>): seq<byte>
  {
    if pieces == [] then [] else pieces[0] + Flatten(pieces[1..])
  }

  /**
   The calls a client makes for input that arrives in `pieces`: one after another while they return
   -2.  Pieces that are not reached count as input left over.
   */
  function Calls(d: Session, pieces: seq<seq<byte>>): CallResult
    requires ValidCore(d.core) && pieces != []
    decreases |pieces|
  {
    var r := Call(d, pieces[0]);
    if |pieces| == 1 then r
    else if r.ret == INCOMPLETE then
      var r' := Calls(r.next, pieces[1..]);
      r'.(out := r.out + r'.out)
    else
      var unread := Flatten(pieces[1..]);
      r.(rest := r.rest + unread, ret := if r.ret >= 0 then r.ret + |unread| else r.ret)
  }

  /** The body is still incomplete after `s`, whatever the overhead guard says. */
  predicate StillIncomplete(d: Session, s: seq<byte>)
    requires ValidCore(d.core)
  {
    Run(d.core, d.trailer, s, 0, []).verdict == Incomplete
  }

  /** The overhead guard ends no call but perhaps the last. */
  predicate NoEarlyTrip(d: Session, pieces: seq<seq<byte>>)
    requires ValidCore(d.core) && pieces != []
    decreases |pieces|
  {
    |pieces| > 1 && StillIncomplete(d, pieces[0]) ==>
      var r := Call(d, pieces[0]);
      r.ret == INCOMPLETE && NoEarlyTrip(r.next, pieces[1..])
  }

  lemma {:induction false} Add64Twice(x: nat, a: nat, b: nat)
    ensures Add64(Add64(x, a), b) == Add64(x, a + b)
  {
  }

  lemma {:induction false} OutcomeConcat(d: Session, a: seq<byte>, b: seq<byte>, ra: RunResult, rb: RunResult)
    requires |ra.out| <= |a| == ra.used && ra.verdict == Incomplete && |rb.out| <= rb.used <= |b|
    ensures var r := Outcome(d, a, ra); var r' := Outcome(r.next, b, rb);
            var one := Outcome(d, a + b, RunResult(rb.core, ra.out + rb.out, |a| + rb.used, rb.verdict));
            && one.out == r.out + r'.out && one.rest == r'.rest && one.ret == r'.ret
            && one.next.core == r'.next.core && (rb.verdict == Incomplete ==> one.next == r'.next)
  {
    assert (a + b)[|a| + rb.used..] == b[rb.used..];
    Add64Twice(d.totalRead, |a|, |b|);
    Add64Twice(d.totalOverhead, |a| - |ra.out|, |b| - |rb.out|);
    assert (|a| - |ra.out|) + (|b| - |rb.out|) == |a + b| - |ra.out + rb.out|;
  }

  /** Two calls, the first incomplete, do what one call does. */
  lemma {:induction false} CallConcat(d: Session, a: seq<byte>, b: seq<byte>)
    requires ValidCore(d.core) && StillIncomplete(d, a) && Call(d, a).ret == INCOMPLETE
    ensures var r := Call(d, a); var r' := Call(r.next, b); var one := Call(d, a + b);
            && StillIncomplete(d, a + b) == StillIncomplete(r.next, b)
            && one.out == r.out + r'.out && one.rest == r'.rest && one.ret == r'.ret
            && one.next.core == r'.next.core
            && (StillIncomplete(d, a + b) ==> one.next == r'.next)
  {
    var ra := Run(d.core, d.trailer, a, 0, []);
    IncompleteUsesAll(d.core, d.trailer, a, 0, []);
    RunConcat(d.core, d.trailer, a, b);
    OutcomeConcat(d, a, b, ra, Run(ra.core, d.trailer, b, 0, []));
  }

  lemma {:induction false} IncompleteUsesAll(c: Core, t: bool, s: seq<byte>, src: nat, out: seq<byte>)
    requires ValidCore(c) && src <= |s| && |out| <= src
    ensures Run(c, t, s, src, out).verdict == Incomplete ==> Run(c, t, s, src, out).used == |s|
    decreases |s| - src
  {
    if src == |s| {
    } else {
      match Step(c, t, s[src])
      case Next(c') => IncompleteUsesAll(c', t, s, src + 1, out);
      case Emit(c') => IncompleteUsesAll(c', t, s, src + 1, out + [s[src]]);
      case _ =>
    }
  }

  /** However a stream is cut into calls, the outcome is that of one call on the whole of it. */
  lemma {:induction false} SplitInvariance(d: Session, pieces: seq<seq<byte>>)
    requires ValidCore(d.core) && pieces != [] && NoEarlyTrip(d, pieces)
    ensures var many := Calls(d, pieces); var one := Call(d, Flatten(pieces));
            && many.out == one.out && many.rest == one.rest && many.ret == one.ret
            && many.next.core == one.next.core
            && (StillIncomplete(d, Flatten(pieces)) ==> many.next == one.next)
    decreases |pieces|
  {
    var a, b := pieces[0], Flatten(pieces[1..]);
    if |pieces| == 1 {
      assert a + [] == a;
    } else if StillIncomplete(d, a) {
      SplitInvariance(Call(d, a).next, pieces[1..]);
      CallConcat(d, a, b);
    } else {
      RunConcat(d.core, d.trailer, a, b);
      var used := Run(d.core, d.trailer, a, 0, []).used;
      assert (a + b)[used..] == a[used..] + b;
    }
  }

  // ---------------------------------------------------------------- the overhead counters

  /** `read` bytes have been read and `data` of them delivered; the counters have not wrapped. */
  predicate Accounted(d: Session, read: nat, data: nat)
  {
    data <= read < TWO_TO_THE_64 && d.totalRead == read && d.totalOverhead == read - data
  }

  lemma {:induction false} CallAccounted(d: Session, s: seq<byte>, read: nat, data: nat)
    requires ValidCore(d.core) && Accounted(d, read, data) && read + |s| < TWO_TO_THE_64 && StillIncomplete(d, s)
    ensures var r := Call(d, s); var read', data' := read + |s|, data + |r.out|;
            && Accounted(r.next, read', data')
            && r.ret == if read' - data' >= OVERHEAD_ALLOWANCE && data' < read' / 4 then MALFORMED else INCOMPLETE
  {
  }

  /**
   Over a run of incomplete calls of a fresh decoder, total read minus total overhead is the data
   delivered, and the guard fires exactly when the overhead has reached 100 KiB and the data
   is below a quarter of what was read.
   */
  lemma {:induction false} RunAccounted(trailer: bool, pieces: seq<seq<byte>>)
    requires pieces != []
    requires var d := Session(START, trailer, 0, 0);
             NoEarlyTrip(d, pieces) && StillIncomplete(d, Flatten(pieces))
    requires |Flatten(pieces)| < TWO_TO_THE_64
    ensures var r := Calls(Session(START, trailer, 0, 0), pieces);
            var read, data := |Flatten(pieces)|, |r.out|;
            && Accounted(r.next, read, data) && Sub64(r.next.totalRead, r.next.totalOverhead) == data
            && r.ret == if read - data >= OVERHEAD_ALLOWANCE && data < read / 4 then MALFORMED else INCOMPLETE
  {
    hide Run, Calls, Flatten, NoEarlyTrip;
    var d := Session(START, trailer, 0, 0);
    SplitInvariance(d, pieces);
    CallAccounted(d, Flatten(pieces), 0, 0);
  }
}
