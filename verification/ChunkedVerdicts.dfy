/**
 When the chunked decoder asks for more and when it refuses, told from the grammar alone: input is
 incomplete exactly if it is a proper prefix of a body.
 */
module ChunkedVerdicts {
  import opened Bytes
  import opened ChunkedDecoder
  import opened ChunkedBody
  import opened ChunkedRuns

  /** Some body is longer than `s` and starts with it. */
  ghost predicate Unfinished(s: seq<byte>, trailer: bool)
  {
    exists b :: ValidBody(b, trailer) && s < Encode(b, trailer)
  }

  /** `s` starts with a body. */
  ghost predicate Finished(s: seq<byte>, trailer: bool)
  {
    exists b :: ValidBody(b, trailer) && Encode(b, trailer) <= s
  }

  // ---------------------------------------------------------------- every state can still complete

  /** The shortest last chunk. */
  function Closing(trailer: bool): seq<byte> { [0x30, LF] + if trailer then [LF] else [] }

  /** Data for what is left of a chunk, its line end and the last chunk. */
  function DataCompletion(left: nat, trailer: bool): seq<byte>
  {
    seq(left, _ => NUL) + [LF] + Closing(trailer)
  }

  /** What completes a body from behind a size, given that size. */
  function SizeCompletion(size: nat, trailer: bool): seq<byte>
  {
    [LF] + if size > 0 then DataCompletion(size, trailer) else if trailer then [LF] else []
  }

  function Completion(c: Core, trailer: bool): (w: seq<byte>)
    ensures w != []
  {
    match c.phase
    case ChunkSize => if c.hexCount == 0 then Closing(trailer) else SizeCompletion(c.bytesLeft, trailer)
    case ChunkExt => SizeCompletion(c.bytesLeft, trailer)
    case ChunkData => DataCompletion(c.bytesLeft, trailer)
    case ChunkCrlf => [LF] + Closing(trailer)
    case TrailersLineHead => [LF]
    case TrailersLineMiddle => [LF, LF]
  }

  ghost predicate CompletesAt(r: RunResult, end: nat) { r.verdict == Complete && r.used == end }

  lemma {:induction false} ClosingRun(t: bool, s: seq<byte>, src: nat, out: seq<byte>)
    requires |out| <= src && At(s, src, Closing(t))
    ensures CompletesAt(Run(START, t, s, src, out), src + |Closing(t)|)
  {
    hide Run;
    var b := Last([0x30], [], End(0));
    assert [0x30][..0] == [] && HexNumber([0x30]) == 0;
    assert Encode(b, t) == Closing(t);
    LastRun(t, s, src, out, b);
  }

  lemma {:induction false} LineEndRun(t: bool, s: seq<byte>, src: nat, out: seq<byte>)
    requires |out| <= src && At(s, src, [LF] + Closing(t))
    ensures CompletesAt(Run(Core(ChunkCrlf, 0, 0), t, s, src, out), src + 1 + |Closing(t)|)
  {
    hide Run;
    AtParts(s, src, [LF], Closing(t));
    assert Eol(0) == [LF];
    CrlfEnd(t, s, src, out, 0);
    ClosingRun(t, s, src + 1, out);
  }

  lemma {:induction false} DataCompletes(t: bool, s: seq<byte>, src: nat, out: seq<byte>, left: nat)
    requires |out| <= src && left > 0 && At(s, src, DataCompletion(left, t))
    ensures CompletesAt(Run(Core(ChunkData, left, 0), t, s, src, out), src + |DataCompletion(left, t)|)
  {
    hide Run;
    var data := seq(left, _ => NUL);
    assert DataCompletion(left, t) == data + ([LF] + Closing(t));
    AtParts(s, src, data, [LF] + Closing(t));
    DataBlock(Core(ChunkData, left, 0), t, s, src, out, left);
    LineEndRun(t, s, src + left, out + s[src..src + left]);
  }

  lemma {:induction false} BareTrailers(s: seq<byte>, src: nat, out: seq<byte>)
    requires |out| <= src < |s| && s[src] == LF
    ensures CompletesAt(Run(Core(TrailersLineHead, 0, 0), true, s, src, out), src + 1)
  {
  }

  lemma {:induction false} SizeCompletes(t: bool, s: seq<byte>, src: nat, out: seq<byte>, size: nat)
    requires |out| <= src && At(s, src, SizeCompletion(size, t))
    ensures src < |s| && s[src] == LF
    ensures CompletesAt(Run(Core(ChunkExt, size, 0), t, s, src, out), src + |SizeCompletion(size, t)|)
  {
    hide Run, Closing, DataCompletion;
    var rest := if size > 0 then DataCompletion(size, t) else if t then [LF] else [];
    AtParts(s, src, [LF], rest);
    AtElements(s, src, [LF]);
    ExtEnd(t, s, src, out, size);
    if size > 0 {
      DataCompletes(t, s, src + 1, out, size);
    } else if t {
      AtElements(s, src + 1, [LF]);
      BareTrailers(s, src + 1, out);
    }
  }

  lemma {:induction false} TrailerCompletes(c: Core, t: bool, s: seq<byte>, src: nat, out: seq<byte>)
    requires Bounded(c) && (c.phase == TrailersLineHead || c.phase == TrailersLineMiddle)
    requires |out| <= src && At(s, src, Completion(c, t))
    ensures CompletesAt(Run(c, t, s, src, out), src + |Completion(c, t)|)
  {
    AtElements(s, src, Completion(c, t));
  }

  /** From every state that a zero-filled decoder reaches some input completes the body. */
  lemma {:induction false} StateCompletes(c: Core, t: bool, s: seq<byte>, src: nat, out: seq<byte>)
    requires Bounded(c) && |out| <= src && At(s, src, Completion(c, t))
    ensures CompletesAt(Run(c, t, s, src, out), src + |Completion(c, t)|)
  {
    hide Run, HexRange;
    match c.phase
    case ChunkSize =>
      if c.hexCount == 0 {
        assert HexRange(0) == 1 by { HexRangeOfNone(); }
        ClosingRun(t, s, src, out);
      } else {
        SizeCompletes(t, s, src, out, c.bytesLeft);
        EnterExt(c, t, s, src, out);
      }
    case ChunkExt => SizeCompletes(t, s, src, out, c.bytesLeft);
    case ChunkData => DataCompletes(t, s, src, out, c.bytesLeft);
    case ChunkCrlf => LineEndRun(t, s, src, out);
    case TrailersLineHead => TrailerCompletes(c, t, s, src, out);
    case TrailersLineMiddle => TrailerCompletes(c, t, s, src, out);
  }

  lemma {:induction false} HexRangeOfNone()
    ensures HexRange(0) == 1
  {
  }

  // ---------------------------------------------------------------- the verdicts

  /** A run that stops for want of input has read a proper prefix of a body. */
  lemma {:induction false} IncompleteIsUnfinished(t: bool, s: seq<byte>)
    requires Run(START, t, s, 0, []).verdict == Incomplete
    ensures Unfinished(s, t)
  {
    hide Run, Completion;
    var r := Run(START, t, s, 0, []);
    RunBounded(START, t, s, 0, []);
    var w := Completion(r.core, t);
    RunPrefix(START, t, s, w, 0, []);
    AtParts(s + w, 0, s, w);
    AtPrefix(s + w, s + w);
    StateCompletes(r.core, t, s + w, |s|, r.out);
    var b := AcceptBody(t, s + w, 0, []);
    BodyRun(t, s + w, 0, [], b);
    AtPrefix(s + w, Encode(b, t));
    assert Encode(b, t) == s + w;
  }

  lemma {:induction false} UnfinishedIsIncomplete(t: bool, s: seq<byte>, b: Body)
    requires ValidBody(b, t) && s < Encode(b, t)
    ensures Run(START, t, s, 0, []).verdict == Incomplete
  {
    hide Run;
    var whole := Encode(b, t);
    assert whole == s + whole[|s|..];
    AtPrefix(whole, whole);
    BodyRun(t, whole, 0, [], b);
    RunPrefix(START, t, s, whole[|s|..], 0, []);
  }

  /** The three verdicts on input from the start: a body is there, is begun, or cannot be there. */
  lemma {:induction false} Verdicts(t: bool, s: seq<byte>)
    ensures var v := Run(START, t, s, 0, []).verdict;
            && (v == Complete <==> Finished(s, t)) && (v == Incomplete <==> Unfinished(s, t))
            && (v == Malformed <==> !Finished(s, t) && !Unfinished(s, t))
  {
    hide Run, ValidBody, Encode;
    if Unfinished(s, t) {
      var b :| ValidBody(b, t) && s < Encode(b, t);
      UnfinishedIsIncomplete(t, s, b);
    }
    if Run(START, t, s, 0, []).verdict == Incomplete {
      IncompleteIsUnfinished(t, s);
    }
    if Finished(s, t) {
      var b :| ValidBody(b, t) && Encode(b, t) <= s;
      AtPrefix(s, Encode(b, t));
      BodyRun(t, s, 0, [], b);
    }
    if Run(START, t, s, 0, []).verdict == Complete {
      var b := AcceptBody(t, s, 0, []);
      AtPrefix(s, Encode(b, t));
    }
  }

  /** The overhead guard, on a call that has read a proper prefix of a body. */
  predicate GuardTrips(d: Session, s: seq<byte>)
    requires ValidCore(d.core)
  {
    var overhead := Add64(d.totalOverhead, |s| - |Run(d.core, d.trailer, s, 0, []).out|);
    overhead >= 102400 && Sub64(Add64(d.totalRead, |s|), overhead) < Add64(d.totalRead, |s|) / 4
  }

  /**
   One call that starts a body returns -2 exactly for a proper prefix of a body that the guard lets
   pass, and -1 exactly for what neither starts with a body nor is such a prefix, and where the guard trips.
   */
  lemma {:induction false} CallVerdicts(d: Session, s: seq<byte>)
    requires d.core == START
    ensures Call(d, s).ret == -2 <==> Unfinished(s, d.trailer) && !GuardTrips(d, s)
    ensures Call(d, s).ret == -1 <==>
              if Unfinished(s, d.trailer) then GuardTrips(d, s) else !Finished(s, d.trailer)
  {
    hide Run, Unfinished, Finished;
    Verdicts(d.trailer, s);
  }
}
