/**
 The resumable decoder for the chunked transfer coding (section 4.1 of RFC 7230).

 `Step` and `Run` are a byte-at-a-time automaton.  `Decoder.Decode` is the decoder itself: it
 scans and compacts its buffer in place and is proved to compute one `Call` of the automaton.
 */
module ChunkedDecoder {
  import opened Bytes

  datatype Phase =
    | ChunkSize
    | ChunkExt
    | ChunkData
    | ChunkCrlf
    | TrailersLineHead
    | TrailersLineMiddle

  /** The part of the decoder's state that decides what the next byte means. */
  datatype Core = Core(phase: Phase, bytesLeft: nat, hexCount: nat)

  const START := Core(ChunkSize, 0, 0)

  /** A decoder inside chunk data has data to expect. */
  predicate ValidCore(c: Core)
  {
    c.phase == ChunkData ==> c.bytesLeft > 0
  }

  /** `bytes_left * 16 + v` in `size_t` arithmetic. */
  function PushDigit(bytesLeft: nat, v: nat): nat
  {
    (bytesLeft * 16 + v) % TWO_TO_THE_64
  }

  /** The bytes that may follow the digits of a chunk size. */
  predicate EndsSize(b: byte)
  {
    b == SP || b == HT || b == 0x3B || b == LF || b == CR
  }

  /** `Emit` is `Next` for a byte of chunk data, `Finish` ends the body, `Reject` does not consume the byte. */
  datatype StepResult = Next(core: Core) | Emit(core: Core) | Finish(core: Core) | Reject

  function ExtStep(c: Core, trailer: bool, b: byte): StepResult
  {
    if b != LF then Next(c)
    else if c.bytesLeft > 0 then Next(c.(phase := ChunkData))
    else if trailer then Next(c.(phase := TrailersLineHead))
    else Finish(c)
  }

  function SizeStep(c: Core, trailer: bool, b: byte): (r: StepResult)
    ensures !r.Reject? ==> ValidCore(r.core)
  {
    var v := DecodeHex(b);
    if v == -1 then
      if c.hexCount == 0 || !EndsSize(b) then Reject
      else ExtStep(Core(ChunkExt, c.bytesLeft, 0), trailer, b)
    else if c.hexCount == 16 then Reject
    else Next(Core(ChunkSize, PushDigit(c.bytesLeft, v), c.hexCount + 1))
  }

  function Step(c: Core, trailer: bool, b: byte): (r: StepResult)
    requires ValidCore(c)
    ensures !r.Reject? ==> ValidCore(r.core)
  {
    match c.phase
    case ChunkSize => SizeStep(c, trailer, b)
    case ChunkExt => ExtStep(c, trailer, b)
    case ChunkData => Emit(if c.bytesLeft == 1 then c.(phase := ChunkCrlf, bytesLeft := 0)
                           else c.(bytesLeft := c.bytesLeft - 1))
    case ChunkCrlf =>
      if b == CR then Next(c) else if b == LF then Next(c.(phase := ChunkSize)) else Reject
    case TrailersLineHead =>
      if b == CR then Next(c) else if b == LF then Finish(c) else Next(c.(phase := TrailersLineMiddle))
    case TrailersLineMiddle =>
      Next(if b == LF then c.(phase := TrailersLineHead) else c)
  }

  datatype Verdict = Incomplete | Complete | Malformed

  /** The state reached, the data decoded, how many bytes were used, and why the run stopped. */
  datatype RunResult = RunResult(core: Core, out: seq<byte>, used: nat, verdict: Verdict)

  /** Feeds `s[src..]` to the automaton; `out` is what the bytes before `src` decoded to. */
  function Run(c: Core, trailer: bool, s: seq<byte>, src: nat, out: seq<byte>): (r: RunResult)
    requires ValidCore(c) && src <= |s| && |out| <= src
    ensures |r.out| <= r.used <= |s| && ValidCore(r.core)
    decreases |s| - src
  {
    if src == |s| then RunResult(c, out, src, Incomplete)
    else
      match Step(c, trailer, s[src])
      case Reject => RunResult(c, out, src, Malformed)
      case Finish(c') => RunResult(c', out, src + 1, Complete)
      case Next(c') => Run(c', trailer, s, src + 1, out)
      case Emit(c') => Run(c', trailer, s, src + 1, out + [s[src]])
  }

  // ---------------------------------------------------------------- one call of the decoder

  const INCOMPLETE := -2
  const MALFORMED := -1
  const OVERHEAD_ALLOWANCE := 100 * 1024

  /** The whole decoder as a value; `totalRead` and `totalOverhead` are `uint64_t` counters. */
  datatype Session = Session(core: Core, trailer: bool, totalRead: nat, totalOverhead: nat)

  /** What one call leaves: the decoder, the decoded data, the input not consumed, the return code. */
  datatype CallResult = CallResult(next: Session, out: seq<byte>, rest: seq<byte>, ret: int)

  predicate TooMuchOverhead(read: nat, overhead: nat)
  {
    overhead >= OVERHEAD_ALLOWANCE && Sub64(read, overhead) < read / 4
  }

  function Call(d: Session, s: seq<byte>): CallResult
    requires ValidCore(d.core)
  {
    Outcome(d, s, Run(d.core, d.trailer, s, 0, []))
  }

  /** What a call makes of the run over its input. */
  function Outcome(d: Session, s: seq<byte>, r: RunResult): CallResult
    requires |r.out| <= r.used <= |s|
  {
    var read := Add64(d.totalRead, |s|);
    match r.verdict
    case Incomplete =>
      var overhead := Add64(d.totalOverhead, |s| - |r.out|);
      var ret := if TooMuchOverhead(read, overhead) then MALFORMED else INCOMPLETE;
      CallResult(Session(r.core, d.trailer, read, overhead), r.out, s[r.used..], ret)
    case Complete =>
      CallResult(Session(r.core, d.trailer, read, d.totalOverhead), r.out, s[r.used..], |s| - r.used)
    case Malformed =>
      CallResult(Session(r.core, d.trailer, read, d.totalOverhead), r.out, s[r.used..], MALFORMED)
  }

  // ---------------------------------------------------------------- steps along a fixed input

  /** Chunk data is passed on unread: `n` bytes at once are `n` steps. */
  lemma {:induction false} DataBlock(c: Core, t: bool, s: seq<byte>, src: nat, out: seq<byte>, n: nat)
    requires ValidCore(c) && c.phase == ChunkData && n <= c.bytesLeft && src + n <= |s| && |out| <= src
    ensures Run(c, t, s, src, out) == Run(AfterData(c, n), t, s, src + n, out + s[src..src + n])
    decreases n
  {
    if n == 0 {
      assert out + s[src..src] == out;
    } else {
      DataBlock(c, t, s, src, out, n - 1);
      assert out + s[src..src + n - 1] + [s[src + n - 1]] == out + s[src..src + n];
    }
  }

  /** The byte after the digits is read again as the first byte of the extension. */
  lemma {:induction false} EnterExt(c: Core, t: bool, s: seq<byte>, src: nat, out: seq<byte>)
    requires ValidCore(c) && c.phase == ChunkSize && src < |s| && |out| <= src
    requires DecodeHex(s[src]) == -1 && c.hexCount > 0 && EndsSize(s[src])
    ensures Run(c, t, s, src, out) == Run(Core(ChunkExt, c.bytesLeft, 0), t, s, src, out)
  {
    assert Step(c, t, s[src]) == Step(Core(ChunkExt, c.bytesLeft, 0), t, s[src]);
  }

  function AfterData(c: Core, n: nat): (c': Core)
    requires ValidCore(c) && c.phase == ChunkData && n <= c.bytesLeft
    ensures ValidCore(c')
  {
    if n == c.bytesLeft then c.(phase := ChunkCrlf, bytesLeft := 0) else c.(bytesLeft := c.bytesLeft - n)
  }

  /** `buf[..bufsz]` still holds the input `s` from `src` on. */
  ghost predicate Window(buf: array<byte>, bufsz: nat, src: nat, s: seq<byte>)
    reads buf
  {
    src <= bufsz == |s| <= buf.Length && forall k :: src <= k < bufsz ==> buf[k] == s[k]
  }

  /** Appends the `n` input bytes at `src` to the decoded data in `buf[..dst]`. */
  method Slide(buf: array<byte>, bufsz: nat, dst: nat, src: nat, n: nat, ghost s: seq<byte>)
    requires Window(buf, bufsz, src, s) && dst <= src && src + n <= bufsz
    modifies buf
    ensures buf[..dst + n] == old(buf[..dst]) + s[src..src + n]
    ensures Window(buf, bufsz, src + n, s) && buf[bufsz..] == old(buf[bufsz..])
  {
    if dst != src {
      MoveDown(buf, dst, src, n);
    }
  }

  class Decoder {
    var bytesLeftInChunk: nat
    var consumeTrailer: bool
    var hexCount: nat
    var state: Phase
    var totalRead: nat
    var totalOverhead: nat

    function State(): Core
      reads this
    {
      Core(state, bytesLeftInChunk, hexCount)
    }

    function View(): Session
      reads this
    {
      Session(State(), consumeTrailer, totalRead, totalOverhead)
    }

    /** A zero-filled decoder. */
    constructor (consumeTrailer: bool)
      ensures View() == Session(START, consumeTrailer, 0, 0)
    {
      bytesLeftInChunk, hexCount, state := 0, 0, ChunkSize;
      this.consumeTrailer := consumeTrailer;
      totalRead, totalOverhead := 0, 0;
    }

    /** What remains to be done, as the automaton sees it: the input from `src` on, after `out`. */
    ghost function Goal(s: seq<byte>, src: nat, out: seq<byte>): RunResult
      reads this
      requires ValidCore(State()) && src <= |s| && |out| <= src
    {
      Run(State(), consumeTrailer, s, src, out)
    }

    /** The loop over the digits of a chunk size: stops at another byte, at the end, or after 16 digits. */
    method ReadDigits(buf: array<byte>, bufsz: nat, src0: nat, ghost s: seq<byte>, ghost out: seq<byte>)
      returns (src: nat)
      requires Window(buf, bufsz, src0, s) && ValidCore(State()) && state == ChunkSize && |out| <= src0
      modifies `bytesLeftInChunk, `hexCount
      ensures src0 <= src <= bufsz && ValidCore(State())
      ensures src < bufsz ==> DecodeHex(s[src]) == -1 || hexCount == 16
      ensures Goal(s, src, out) == old(Goal(s, src0, out))
    {
      src := src0;
      ghost var goal := Goal(s, src0, out);
      while src < bufsz && DecodeHex(buf[src]) != -1 && hexCount != 16
        invariant src0 <= src <= bufsz && ValidCore(State()) && Goal(s, src, out) == goal
      {
        bytesLeftInChunk := PushDigit(bytesLeftInChunk, DecodeHex(buf[src]));
        hexCount := hexCount + 1;
        src := src + 1;
      }
    }

    /** `case CHUNKED_IN_CHUNK_SIZE`. */
    method ReadSize(buf: array<byte>, bufsz: nat, src0: nat, ghost s: seq<byte>, ghost out: seq<byte>)
      returns (src: nat, verdict: Option<Verdict>)
      requires Window(buf, bufsz, src0, s) && ValidCore(State()) && state == ChunkSize && |out| <= src0
      modifies `bytesLeftInChunk, `hexCount, `state
      ensures src0 <= src <= bufsz && ValidCore(State())
      ensures match verdict
              case None => state == ChunkExt && Goal(s, src, out) == old(Goal(s, src0, out))
              case Some(v) => old(Goal(s, src0, out)) == RunResult(State(), out, src, v)
    {
      src := ReadDigits(buf, bufsz, src0, s, out);
      if src == bufsz {
        return src, Some(Incomplete);
      }
      if DecodeHex(buf[src]) != -1 || hexCount == 0 || !EndsSize(buf[src]) {
        return src, Some(Malformed);
      }
      EnterExt(State(), consumeTrailer, s, src, out);
      hexCount := 0;
      state := ChunkExt;
      verdict := None;
    }

    /** `case CHUNKED_IN_CHUNK_EXT`. */
    method SkipExt(buf: array<byte>, bufsz: nat, src0: nat, ghost s: seq<byte>, ghost out: seq<byte>)
      returns (src: nat, verdict: Option<Verdict>)
      requires Window(buf, bufsz, src0, s) && ValidCore(State()) && state == ChunkExt && |out| <= src0
      modifies `state
      ensures src0 <= src <= bufsz && ValidCore(State())
      ensures match verdict
              case None => src0 < src && (state == ChunkData || state == TrailersLineHead)
                           && Goal(s, src, out) == old(Goal(s, src0, out))
              case Some(v) => old(Goal(s, src0, out)) == RunResult(State(), out, src, v)
    {
      src := src0;
      while src < bufsz && buf[src] != LF
        invariant src0 <= src <= bufsz && Goal(s, src, out) == old(Goal(s, src0, out))
      {
        src := src + 1;
      }
      if src == bufsz {
        return src, Some(Incomplete);
      }
      src := src + 1;
      if bytesLeftInChunk == 0 {
        if consumeTrailer {
          state := TrailersLineHead;
          return src, None;
        }
        return src, Some(Complete);
      }
      state := ChunkData;
      verdict := None;
    }

    /** `case CHUNKED_IN_CHUNK_DATA`: the available part of the chunk is moved down to `dst0`. */
    method PassData(buf: array<byte>, bufsz: nat, src0: nat, dst0: nat, ghost s: seq<byte>)
      returns (src: nat, dst: nat, verdict: Option<Verdict>)
      requires Window(buf, bufsz, src0, s) && ValidCore(State()) && state == ChunkData && dst0 <= src0
      modifies `bytesLeftInChunk, `state, buf
      ensures src0 <= src <= bufsz && dst0 <= dst <= src && ValidCore(State()) && Window(buf, bufsz, src, s)
      ensures buf[bufsz..] == old(buf[bufsz..])
      ensures match verdict
              case None => src0 < src && state == ChunkCrlf
                           && Goal(s, src, buf[..dst]) == old(Goal(s, src0, buf[..dst0]))
              case Some(v) => old(Goal(s, src0, buf[..dst0])) == RunResult(State(), buf[..dst], src, v)
    {
      var avail := bufsz - src0;
      var n := if avail < bytesLeftInChunk then avail else bytesLeftInChunk;
      DataBlock(State(), consumeTrailer, s, src0, buf[..dst0], n);
      Slide(buf, bufsz, dst0, src0, n, s);
      src, dst := src0 + n, dst0 + n;
      bytesLeftInChunk := bytesLeftInChunk - n;
      if bytesLeftInChunk > 0 {
        return src, dst, Some(Incomplete);
      }
      state := ChunkCrlf;
      verdict := None;
    }

    /** `case CHUNKED_IN_CHUNK_CRLF`. */
    method SkipCrlf(buf: array<byte>, bufsz: nat, src0: nat, ghost s: seq<byte>, ghost out: seq<byte>)
      returns (src: nat, verdict: Option<Verdict>)
      requires Window(buf, bufsz, src0, s) && ValidCore(State()) && state == ChunkCrlf && |out| <= src0
      modifies `state
      ensures src0 <= src <= bufsz && ValidCore(State())
      ensures match verdict
              case None => src0 < src && Goal(s, src, out) == old(Goal(s, src0, out))
              case Some(v) => old(Goal(s, src0, out)) == RunResult(State(), out, src, v)
    {
      src := src0;
      while src < bufsz && buf[src] == CR
        invariant src0 <= src <= bufsz && Goal(s, src, out) == old(Goal(s, src0, out))
      {
        src := src + 1;
      }
      if src == bufsz {
        return src, Some(Incomplete);
      }
      if buf[src] != LF {
        return src, Some(Malformed);
      }
      src := src + 1;
      state := ChunkSize;
      verdict := None;
    }

    /** `case CHUNKED_IN_TRAILERS_LINE_HEAD`. */
    method ReadLineHead(buf: array<byte>, bufsz: nat, src0: nat, ghost s: seq<byte>, ghost out: seq<byte>)
      returns (src: nat, verdict: Option<Verdict>)
      requires Window(buf, bufsz, src0, s) && ValidCore(State()) && state == TrailersLineHead && |out| <= src0
      modifies `state
      ensures src0 <= src <= bufsz && ValidCore(State())
      ensures match verdict
              case None => src0 < src && state == TrailersLineMiddle && Goal(s, src, out) == old(Goal(s, src0, out))
              case Some(v) => old(Goal(s, src0, out)) == RunResult(State(), out, src, v)
    {
      src := src0;
      while src < bufsz && buf[src] == CR
        invariant src0 <= src <= bufsz && Goal(s, src, out) == old(Goal(s, src0, out))
      {
        src := src + 1;
      }
      if src == bufsz {
        return src, Some(Incomplete);
      }
      src := src + 1;
      if buf[src - 1] == LF {
        return src, Some(Complete);
      }
      state := TrailersLineMiddle;
      verdict := None;
    }

    /** `case CHUNKED_IN_TRAILERS_LINE_MIDDLE`. */
    method SkipLine(buf: array<byte>, bufsz: nat, src0: nat, ghost s: seq<byte>, ghost out: seq<byte>)
      returns (src: nat, verdict: Option<Verdict>)
      requires Window(buf, bufsz, src0, s) && ValidCore(State()) && state == TrailersLineMiddle && |out| <= src0
      modifies `state
      ensures src0 <= src <= bufsz && ValidCore(State())
      ensures match verdict
              case None => src0 < src && Goal(s, src, out) == old(Goal(s, src0, out))
              case Some(v) => old(Goal(s, src0, out)) == RunResult(State(), out, src, v)
    {
      src := src0;
      while src < bufsz && buf[src] != LF
        invariant src0 <= src <= bufsz && Goal(s, src, out) == old(Goal(s, src0, out))
      {
        src := src + 1;
      }
      if src == bufsz {
        return src, Some(Incomplete);
      }
      src := src + 1;
      state := TrailersLineHead;
      verdict := None;
    }

    /** The state machine: runs until the input is used up, the body ends, or a byte is refused. */
    method Scan(buf: array<byte>, bufsz: nat) returns (src: nat, dst: nat, verdict: Verdict)
      requires bufsz <= buf.Length && ValidCore(State())
      modifies `bytesLeftInChunk, `hexCount, `state, buf
      ensures dst <= src <= bufsz && ValidCore(State()) && Window(buf, bufsz, src, old(buf[..bufsz]))
      ensures buf[bufsz..] == old(buf[bufsz..])
      ensures old(Goal(buf[..bufsz], 0, [])) == RunResult(State(), buf[..dst], src, verdict)
    {
      ghost var s := buf[..bufsz];
      ghost var goal := Goal(s, 0, []);
      src, dst := 0, 0;
      var stop: Option<Verdict> := None;
      while stop.None?
        invariant dst <= src <= bufsz && ValidCore(State()) && Window(buf, bufsz, src, s)
        invariant buf[bufsz..] == old(buf[bufsz..])
        invariant stop.None? ==> Goal(s, src, buf[..dst]) == goal
        invariant stop.Some? ==> goal == RunResult(State(), buf[..dst], src, stop.value)
        decreases stop.None?, bufsz - src, state.ChunkSize?
      {
        match state
        case ChunkSize => src, stop := ReadSize(buf, bufsz, src, s, buf[..dst]);
        case ChunkExt => src, stop := SkipExt(buf, bufsz, src, s, buf[..dst]);
        case ChunkData => src, dst, stop := PassData(buf, bufsz, src, dst, s);
        case ChunkCrlf => src, stop := SkipCrlf(buf, bufsz, src, s, buf[..dst]);
        case TrailersLineHead => src, stop := ReadLineHead(buf, bufsz, src, s, buf[..dst]);
        case TrailersLineMiddle => src, stop := SkipLine(buf, bufsz, src, s, buf[..dst]);
      }
      verdict := stop.value;
    }

    /** The bookkeeping at the end of a call. */
    method Account(ghost d: Session, ghost s: seq<byte>, ghost out: seq<byte>, bufsz: nat, src: nat, dst: nat,
        verdict: Verdict)
      returns (ret: int)
      requires dst == |out| <= src <= bufsz == |s|
      requires d.trailer == consumeTrailer && d.totalOverhead == totalOverhead && totalRead == Add64(d.totalRead, bufsz)
      modifies `totalOverhead
      ensures var call := Outcome(d, s, RunResult(State(), out, src, verdict)); View() == call.next && ret == call.ret
    {
      match verdict
      case Complete => ret := bufsz - src;
      case Malformed => ret := MALFORMED;
      case Incomplete =>
        totalOverhead := Add64(totalOverhead, bufsz - dst);
        ret := if TooMuchOverhead(totalRead, totalOverhead) then MALFORMED else INCOMPLETE;
    }

    /**
     Decodes `buf[..bufsz]` in place.  `size` is the length of the decoded data now at the front of
     `buf`; the bytes not consumed follow it.
     */
    method Decode(buf: array<byte>, bufsz: nat) returns (ret: int, size: nat)
      requires bufsz <= buf.Length && ValidCore(State())
      modifies this, buf
      ensures ValidCore(State())
      ensures var call := old(Call(View(), buf[..bufsz]));
              && View() == call.next && ret == call.ret
              && size == |call.out| <= size + |call.rest| <= bufsz
              && buf[..size + |call.rest|] == call.out + call.rest
      ensures buf[bufsz..] == old(buf[bufsz..])
    {
      totalRead := Add64(totalRead, bufsz);
      var src, dst, verdict := Scan(buf, bufsz);
      ghost var out := buf[..dst];
      Slide(buf, bufsz, dst, src, bufsz - src, old(buf[..bufsz]));
      assert old(buf[..bufsz])[src..src + (bufsz - src)] == old(buf[..bufsz])[src..];
      ret := Account(old(View()), old(buf[..bufsz]), out, bufsz, src, dst, verdict);
      size := dst;
    }
  }
}
