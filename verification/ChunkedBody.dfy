/**
 What the chunked decoder decodes, over whole bodies and over whole runs of calls.

 `Body` is the grammar of section 4.1 of RFC 7230 with the liberties the decoder takes: any number
 of CRs before the LF of a data or trailer line, and anything free of LF after a size.
 */
module ChunkedBody {
  import opened Bytes
  import opened ChunkedDecoder

  // ---------------------------------------------------------------- the size accumulator

  /** 16^n: one more than the largest number of n hexadecimal digits. */
  function HexRange(n: nat): nat
  {
    if n == 0 then 1 else 16 * HexRange(n - 1)
  }

  /** What holds in every state that a zero-filled decoder reaches. */
  predicate Bounded(c: Core)
  {
    && ValidCore(c) && c.bytesLeft < TWO_TO_THE_64
    && (c.phase == ChunkSize ==> c.hexCount <= 16 && c.bytesLeft < HexRange(c.hexCount))
    && (c.phase != ChunkSize ==> c.hexCount == 0)
    && (c.phase in {ChunkCrlf, TrailersLineHead, TrailersLineMiddle} ==> c.bytesLeft == 0)
  }

  lemma {:induction false} HexRangeFits(n: nat)
    requires n <= 16
    ensures HexRange(n) <= TWO_TO_THE_64
    decreases 16 - n
  {
    if n == 16 {
      assert HexRange(4) == 0x1_0000;
      assert HexRange(8) == 0x1_0000_0000;
      assert HexRange(12) == 0x1_0000_0000_0000;
    } else {
      HexRangeFits(n + 1);
    }
  }

  /** The accumulator stays below 16^hexCount, so taking one more digit is exact. */
  lemma {:induction false} SizeNeverWraps(c: Core, v: nat)
    requires Bounded(c) && c.phase == ChunkSize && c.hexCount < 16 && v < 16
    ensures PushDigit(c.bytesLeft, v) == c.bytesLeft * 16 + v < HexRange(c.hexCount + 1)
    ensures Bounded(Core(ChunkSize, c.bytesLeft * 16 + v, c.hexCount + 1))
  {
    HexRangeFits(c.hexCount + 1);
    assert c.bytesLeft * 16 + v < HexRange(c.hexCount + 1);
  }

  lemma {:induction false} StepBounded(c: Core, trailer: bool, b: byte)
    requires Bounded(c)
    ensures var r := Step(c, trailer, b); !r.Reject? ==> Bounded(r.core)
  {
    if c.phase == ChunkSize && DecodeHex(b) != -1 && c.hexCount < 16 {
      SizeNeverWraps(c, DecodeHex(b));
    }
  }

  lemma {:induction false} RunBounded(c: Core, t: bool, s: seq<byte>, src: nat, out: seq<byte>)
    requires Bounded(c) && src <= |s| && |out| <= src
    ensures Bounded(Run(c, t, s, src, out).core)
    decreases |s| - src
  {
    if src == |s| {
    } else {
      StepBounded(c, t, s[src]);
      match Step(c, t, s[src])
      case Next(c') => RunBounded(c', t, s, src + 1, out);
      case Emit(c') => RunBounded(c', t, s, src + 1, out + [s[src]]);
      case _ =>
    }
  }

  // ---------------------------------------------------------------- the grammar

  datatype Chunk = Chunk(digits: seq<byte>, ext: seq<byte>, data: seq<byte>, crs: nat)

  datatype Trailers =
    | End(crs: nat)
    | Line(crs: nat, text: seq<byte>, tail: Trailers)

  datatype Body =
    | Last(digits: seq<byte>, ext: seq<byte>, trailers: Trailers)
    | More(head: Chunk, tail: Body)

  function HexNumber(digits: seq<byte>): nat
    requires AllHex(digits)
  {
    if digits == [] then 0 else HexNumber(digits[..|digits| - 1]) * 16 + DecodeHex(digits[|digits| - 1])
  }

  predicate AllHex(digits: seq<byte>)
  {
    forall k :: 0 <= k < |digits| ==> DecodeHex(digits[k]) != -1
  }

  predicate ValidSizeLine(digits: seq<byte>, ext: seq<byte>, size: nat)
  {
    && 1 <= |digits| <= 16 && AllHex(digits) && HexNumber(digits) == size
    && LF !in ext && (ext != [] ==> EndsSize(ext[0]))
  }

  predicate ValidChunk(c: Chunk)
  {
    c.data != [] && ValidSizeLine(c.digits, c.ext, |c.data|)
  }

  predicate ValidTrailers(t: Trailers)
  {
    t.Line? ==> t.text != [] && t.text[0] != CR && LF !in t.text && ValidTrailers(t.tail)
  }

  /** Without `trailer` the body ends at its last size line and the trailers mean nothing. */
  predicate ValidBody(b: Body, trailer: bool)
  {
    match b
    case Last(digits, ext, trailers) => ValidSizeLine(digits, ext, 0) && (trailer ==> ValidTrailers(trailers))
    case More(c, tail) => ValidChunk(c) && ValidBody(tail, trailer)
  }

  /** A line end: CRs, then LF. */
  function Eol(crs: nat): (s: seq<byte>)
    ensures |s| == crs + 1 && s[crs] == LF && forall k :: 0 <= k < crs ==> s[k] == CR
  {
    seq(crs, _ => CR) + [LF]
  }

  function SizeLine(digits: seq<byte>, ext: seq<byte>): seq<byte>
  {
    digits + ext + [LF]
  }

  function EncodeChunk(c: Chunk): seq<byte>
  {
    SizeLine(c.digits, c.ext) + c.data + Eol(c.crs)
  }

  function TrailerLine(crs: nat, text: seq<byte>): seq<byte>
  {
    seq(crs, _ => CR) + text + [LF]
  }

  function EncodeTrailers(t: Trailers): seq<byte>
  {
    match t
    case End(crs) => Eol(crs)
    case Line(crs, text, tail) => TrailerLine(crs, text) + EncodeTrailers(tail)
  }

  function Encode(b: Body, trailer: bool): seq<byte>
  {
    match b
    case Last(digits, ext, trailers) => SizeLine(digits, ext) + (if trailer then EncodeTrailers(trailers) else [])
    case More(c, tail) => EncodeChunk(c) + Encode(tail, trailer)
  }

  function Data(b: Body): seq<byte>
  {
    if b.Last? then [] else b.head.data + Data(b.tail)
  }

  // ---------------------------------------------------------------- encoded bodies are decoded

  lemma {:induction false} DigitRun(c: Core, t: bool, s: seq<byte>, src: nat, out: seq<byte>)
    requires Bounded(c) && c.phase == ChunkSize && src < |s| && |out| <= src
    requires DecodeHex(s[src]) != -1 && c.hexCount < 16
    ensures var c' := Core(ChunkSize, c.bytesLeft * 16 + DecodeHex(s[src]), c.hexCount + 1);
            Bounded(c') && Run(c, t, s, src, out) == Run(c', t, s, src + 1, out)
  {
    SizeNeverWraps(c, DecodeHex(s[src]));
  }

  lemma {:induction false} DigitsRun(t: bool, s: seq<byte>, src: nat, out: seq<byte>, digits: seq<byte>)
    requires |out| <= src && At(s, src, digits) && AllHex(digits) && |digits| <= 16
    ensures Bounded(AfterDigits(digits))
    ensures Run(START, t, s, src, out) == Run(AfterDigits(digits), t, s, src + |digits|, out)
    decreases |digits|
  {
    hide Run;
    if digits == [] {
    } else {
      var n := |digits| - 1;
      assert digits[..n] + [digits[n]] == digits;
      AtParts(s, src, digits[..n], [digits[n]]);
      AtElements(s, src + n, [digits[n]]);
      DigitsRun(t, s, src, out, digits[..n]);
      DigitRun(AfterDigits(digits[..n]), t, s, src + n, out);
    }
  }

  function AfterDigits(digits: seq<byte>): Core
    requires AllHex(digits)
  {
    Core(ChunkSize, HexNumber(digits), |digits|)
  }

  /** Text without LF leaves an extension, or a trailer line that has begun, where it was. */
  lemma {:induction false} TextRun(c: Core, t: bool, s: seq<byte>, src: nat, out: seq<byte>, n: nat)
    requires ValidCore(c) && (c.phase == ChunkExt || c.phase == TrailersLineMiddle)
    requires |out| <= src && src + n <= |s| && forall k :: src <= k < src + n ==> s[k] != LF
    ensures Run(c, t, s, src, out) == Run(c, t, s, src + n, out)
    decreases n
  {
    if n == 0 {
    } else {
      TextRun(c, t, s, src + 1, out, n - 1);
    }
  }

  lemma {:induction false} CrsRun(c: Core, t: bool, s: seq<byte>, src: nat, out: seq<byte>, n: nat)
    requires ValidCore(c) && (c.phase == ChunkCrlf || c.phase == TrailersLineHead)
    requires |out| <= src && src + n <= |s| && forall k :: src <= k < src + n ==> s[k] == CR
    ensures Run(c, t, s, src, out) == Run(c, t, s, src + n, out)
    decreases n
  {
    if n == 0 {
    } else {
      CrsRun(c, t, s, src + 1, out, n - 1);
    }
  }

  lemma {:induction false} ExtEnd(t: bool, s: seq<byte>, eol: nat, out: seq<byte>, size: nat)
    requires |out| <= eol < |s| && s[eol] == LF
    ensures Run(Core(ChunkExt, size, 0), t, s, eol, out)
         == if size > 0 then Run(Core(ChunkData, size, 0), t, s, eol + 1, out)
            else if t then Run(Core(TrailersLineHead, 0, 0), t, s, eol + 1, out)
            else RunResult(Core(ChunkExt, 0, 0), out, eol + 1, Complete)
  {
  }

  lemma {:induction false} SizeLineRun(t: bool, s: seq<byte>, src: nat, out: seq<byte>, digits: seq<byte>,
      ext: seq<byte>, size: nat)
    requires |out| <= src && At(s, src, SizeLine(digits, ext)) && ValidSizeLine(digits, ext, size)
    ensures var end := src + |SizeLine(digits, ext)|;
            && size < TWO_TO_THE_64
            && Run(START, t, s, src, out)
               == if size > 0 then Run(Core(ChunkData, size, 0), t, s, end, out)
                  else if t then Run(Core(TrailersLineHead, 0, 0), t, s, end, out)
                  else RunResult(Core(ChunkExt, 0, 0), out, end, Complete)
  {
    hide Run;
    AtParts(s, src, digits + ext, [LF]);
    AtParts(s, src, digits, ext);
    DigitsRun(t, s, src, out, digits);
    var mid, eol := src + |digits|, src + |digits| + |ext|;
    AtElements(s, mid, ext);
    AtElements(s, eol, [LF]);
    EnterExt(Core(ChunkSize, size, |digits|), t, s, mid, out);
    TextRun(Core(ChunkExt, size, 0), t, s, mid, out, |ext|);
    ExtEnd(t, s, eol, out, size);
  }

  /** The line end behind chunk data. */
  lemma {:induction false} CrlfEnd(t: bool, s: seq<byte>, src: nat, out: seq<byte>, crs: nat)
    requires |out| <= src && At(s, src, Eol(crs))
    ensures Run(Core(ChunkCrlf, 0, 0), t, s, src, out) == Run(START, t, s, src + crs + 1, out)
  {
    AtElements(s, src, Eol(crs));
    CrsRun(Core(ChunkCrlf, 0, 0), t, s, src, out, crs);
  }

  lemma {:induction false} ChunkRun(t: bool, s: seq<byte>, src: nat, out: seq<byte>, c: Chunk)
    requires |out| <= src && At(s, src, EncodeChunk(c)) && ValidChunk(c)
    ensures Run(START, t, s, src, out) == Run(START, t, s, src + |EncodeChunk(c)|, out + c.data)
  {
    hide Run;
    var line := SizeLine(c.digits, c.ext);
    var at := src + |line|;
    AtParts(s, src, line + c.data, Eol(c.crs));
    AtParts(s, src, line, c.data);
    AtElements(s, at, c.data);
    assert s[at..at + |c.data|] == c.data;
    SizeLineRun(t, s, src, out, c.digits, c.ext, |c.data|);
    DataBlock(Core(ChunkData, |c.data|, 0), t, s, at, out, |c.data|);
    CrlfEnd(t, s, at + |c.data|, out + c.data, c.crs);
  }

  /** A trailer line from its first byte that is not CR. */
  lemma {:induction false} TrailerTextRun(s: seq<byte>, src: nat, out: seq<byte>, n: nat)
    requires |out| <= src && n > 0 && src + n < |s| && s[src + n] == LF && s[src] != CR
    requires forall k :: src <= k < src + n ==> s[k] != LF
    ensures Run(Core(TrailersLineHead, 0, 0), true, s, src, out)
            == Run(Core(TrailersLineHead, 0, 0), true, s, src + n + 1, out)
  {
    TextRun(Core(TrailersLineMiddle, 0, 0), true, s, src + 1, out, n - 1);
  }

  lemma {:induction false} TrailerLineRun(s: seq<byte>, src: nat, out: seq<byte>, crs: nat, text: seq<byte>)
    requires |out| <= src && At(s, src, TrailerLine(crs, text))
    requires text != [] && text[0] != CR && LF !in text
    ensures Run(Core(TrailersLineHead, 0, 0), true, s, src, out)
         == Run(Core(TrailersLineHead, 0, 0), true, s, src + |TrailerLine(crs, text)|, out)
  {
    hide Run;
    AtElements(s, src, TrailerLine(crs, text));
    CrsRun(Core(TrailersLineHead, 0, 0), true, s, src, out, crs);
    TrailerTextRun(s, src + crs, out, |text|);
  }

  lemma {:induction false} TrailersRun(s: seq<byte>, src: nat, out: seq<byte>, tr: Trailers)
    requires |out| <= src && ValidTrailers(tr) && At(s, src, EncodeTrailers(tr))
    ensures Run(Core(TrailersLineHead, 0, 0), true, s, src, out)
         == RunResult(Core(TrailersLineHead, 0, 0), out, src + |EncodeTrailers(tr)|, Complete)
    decreases tr
  {
    match tr
    case End(crs) =>
      AtElements(s, src, Eol(crs));
      CrsRun(Core(TrailersLineHead, 0, 0), true, s, src, out, crs);
    case Line(crs, text, tail) =>
      AtParts(s, src, TrailerLine(crs, text), EncodeTrailers(tail));
      TrailerLineRun(s, src, out, crs, text);
      TrailersRun(s, src + |TrailerLine(crs, text)|, out, tail);
  }

  lemma {:induction false} LastRun(t: bool, s: seq<byte>, src: nat, out: seq<byte>, b: Body)
    requires b.Last? && |out| <= src && ValidBody(b, t) && At(s, src, Encode(b, t))
    ensures var r := Run(START, t, s, src, out);
            r.verdict == Complete && r.out == out && r.used == src + |Encode(b, t)|
  {
    hide Run;
    if t {
      AtParts(s, src, SizeLine(b.digits, b.ext), EncodeTrailers(b.trailers));
      TrailersRun(s, src + |SizeLine(b.digits, b.ext)|, out, b.trailers);
    }
    SizeLineRun(t, s, src, out, b.digits, b.ext, 0);
  }

  /** Every encoded body, wherever it stands, is decoded to its data and left exactly at its end. */
  lemma {:induction false} BodyRun(t: bool, s: seq<byte>, src: nat, out: seq<byte>, b: Body)
    requires |out| <= src && ValidBody(b, t) && At(s, src, Encode(b, t))
    ensures var r := Run(START, t, s, src, out);
            r.verdict == Complete && r.out == out + Data(b) && r.used == src + |Encode(b, t)|
    decreases b
  {
    hide Run;
    match b
    case Last(_, _, _) =>
      LastRun(t, s, src, out, b);
    case More(c, tail) =>
      AtParts(s, src, EncodeChunk(c), Encode(tail, t));
      ChunkRun(t, s, src, out, c);
      BodyRun(t, s, src + |EncodeChunk(c)|, out + c.data, tail);
      assert out + c.data + Data(tail) == out + (c.data + Data(tail));
  }

  // ---------------------------------------------------------------- only encoded bodies are accepted

  function HexEnd(s: seq<byte>, i: nat): (e: nat)
    requires i <= |s|
    ensures i <= e <= |s| && (forall k :: i <= k < e ==> DecodeHex(s[k]) != -1) && (e < |s| ==> DecodeHex(s[e]) == -1)
    decreases |s| - i
  {
    if i < |s| && DecodeHex(s[i]) != -1 then HexEnd(s, i + 1) else i
  }

  function LfAt(s: seq<byte>, i: nat): (e: nat)
    requires i <= |s|
    ensures i <= e <= |s| && (forall k :: i <= k < e ==> s[k] != LF) && (e < |s| ==> s[e] == LF)
    decreases |s| - i
  {
    if i < |s| && s[i] != LF then LfAt(s, i + 1) else i
  }

  function CrEnd(s: seq<byte>, i: nat): (e: nat)
    requires i <= |s|
    ensures i <= e <= |s| && (forall k :: i <= k < e ==> s[k] == CR) && (e < |s| ==> s[e] != CR)
    decreases |s| - i
  {
    if i < |s| && s[i] == CR then CrEnd(s, i + 1) else i
  }

  lemma {:induction false} FewDigits(t: bool, s: seq<byte>, src: nat, out: seq<byte>)
    requires src <= |s| && |out| <= src && Run(START, t, s, src, out).verdict == Complete
    ensures 1 <= HexEnd(s, src) - src <= 16 && HexEnd(s, src) < |s| && EndsSize(s[HexEnd(s, src)])
  {
    var e := HexEnd(s, src);
    var n := if e - src <= 16 then e - src else 16;
    DigitsRun(t, s, src, out, s[src..src + n]);
  }

  /** An accepted run begins with a size line. */
  lemma {:induction false} AcceptSizeLine(t: bool, s: seq<byte>, src: nat, out: seq<byte>)
    returns (digits: seq<byte>, ext: seq<byte>, size: nat)
    requires src <= |s| && |out| <= src && Run(START, t, s, src, out).verdict == Complete
    ensures ValidSizeLine(digits, ext, size) && At(s, src, SizeLine(digits, ext))
  {
    var e := HexEnd(s, src);
    var eol := LfAt(s, e);
    digits, ext := s[src..e], s[e..eol];
    AtParts(s, src, digits, ext);
    AtParts(s, src, digits + ext, [LF]);
    FewDigits(t, s, src, out);
    size := HexNumber(digits);
    DigitsRun(t, s, src, out, digits);
    EnterExt(Core(ChunkSize, size, |digits|), t, s, e, out);
    TextRun(Core(ChunkExt, size, 0), t, s, e, out, eol - e);
  }

  /** A trailer section that does not end at its first line starts with a whole trailer line. */
  lemma {:induction false} AcceptTrailerLine(s: seq<byte>, src: nat, out: seq<byte>)
    requires src <= |s| && |out| <= src && Run(Core(TrailersLineHead, 0, 0), true, s, src, out).verdict == Complete
    ensures CrEnd(s, src) < |s|
    ensures s[CrEnd(s, src)] != LF ==> CrEnd(s, src) < LfAt(s, CrEnd(s, src)) < |s|
  {
    var e := CrEnd(s, src);
    CrsRun(Core(TrailersLineHead, 0, 0), true, s, src, out, e - src);
    if e < |s| && s[e] != LF {
      var eol := LfAt(s, e + 1);
      TextRun(Core(TrailersLineMiddle, 0, 0), true, s, e + 1, out, eol - (e + 1));
    }
  }

  lemma {:induction false} AtTrailerLine(s: seq<byte>, src: nat, e: nat, eol: nat)
    requires src <= e <= eol < |s| && s[eol] == LF && forall k :: src <= k < e ==> s[k] == CR
    ensures At(s, src, TrailerLine(e - src, s[e..eol])) && src + |TrailerLine(e - src, s[e..eol])| == eol + 1
  {
    AtSlice(s, e, eol - e);
    AtParts(s, src, seq(e - src, _ => CR), s[e..eol]);
    AtParts(s, src, seq(e - src, _ => CR) + s[e..eol], [LF]);
  }

  lemma {:induction false} AcceptTrailers(s: seq<byte>, src: nat, out: seq<byte>) returns (tr: Trailers)
    requires src <= |s| && |out| <= src && Run(Core(TrailersLineHead, 0, 0), true, s, src, out).verdict == Complete
    ensures ValidTrailers(tr) && At(s, src, EncodeTrailers(tr))
    decreases |s| - src
  {
    var e := CrEnd(s, src);
    AcceptTrailerLine(s, src, out);
    hide Run;
    if s[e] == LF {
      tr := End(e - src);
    } else {
      var text := s[e..LfAt(s, e)];
      AtTrailerLine(s, src, e, LfAt(s, e));
      TrailerLineRun(s, src, out, e - src, text);
      var tail := AcceptTrailers(s, LfAt(s, e) + 1, out);
      AtParts(s, src, TrailerLine(e - src, text), EncodeTrailers(tail));
      tr := Line(e - src, text, tail);
    }
  }

  /** After the data of a chunk an accepted run has a line end. */
  lemma {:induction false} AcceptData(t: bool, s: seq<byte>, src: nat, out: seq<byte>, size: nat) returns (crs: nat)
    requires src <= |s| && |out| <= src && size > 0
    requires Run(Core(ChunkData, size, 0), t, s, src, out).verdict == Complete
    ensures src + size + crs < |s| && At(s, src + size, Eol(crs))
  {
    var n := if src + size <= |s| then size else |s| - src;
    DataBlock(Core(ChunkData, size, 0), t, s, src, out, n);
    var e := CrEnd(s, src + n);
    crs := e - (src + n);
    CrsRun(Core(ChunkCrlf, 0, 0), t, s, src + n, out + s[src..src + n], crs);
  }

  /** An accepted run with a non-zero first size begins with a whole chunk. */
  lemma {:induction false} AcceptChunk(t: bool, s: seq<byte>, src: nat, out: seq<byte>, digits: seq<byte>,
      ext: seq<byte>, size: nat)
    returns (c: Chunk)
    requires |out| <= src && size > 0 && ValidSizeLine(digits, ext, size) && At(s, src, SizeLine(digits, ext))
    requires Run(START, t, s, src, out).verdict == Complete
    ensures ValidChunk(c) && At(s, src, EncodeChunk(c))
  {
    hide Run;
    SizeLineRun(t, s, src, out, digits, ext, size);
    var at := src + |SizeLine(digits, ext)|;
    var crs := AcceptData(t, s, at, out, size);
    c := Chunk(digits, ext, s[at..at + size], crs);
    AtSlice(s, at, size);
    AtParts(s, src, SizeLine(digits, ext), c.data);
    AtParts(s, src, SizeLine(digits, ext) + c.data, Eol(crs));
  }

  /** An accepted run begins with its last size line and trailers, or with a chunk and an accepted rest. */
  lemma {:induction false} AcceptFirst(t: bool, s: seq<byte>, src: nat, out: seq<byte>)
      returns (b: Option<Body>, c: Chunk)
    requires src <= |s| && |out| <= src && Run(START, t, s, src, out).verdict == Complete
    ensures b.Some? ==> ValidBody(b.value, t) && At(s, src, Encode(b.value, t))
    ensures b.None? ==> ValidChunk(c) && At(s, src, EncodeChunk(c))
  {
    hide Run;
    c := Chunk([], [], [], 0);
    var digits, ext, size := AcceptSizeLine(t, s, src, out);
    if size > 0 {
      c := AcceptChunk(t, s, src, out, digits, ext, size);
      return None, c;
    }
    var tr := End(0);
    if t {
      SizeLineRun(t, s, src, out, digits, ext, size);
      tr := AcceptTrailers(s, src + |SizeLine(digits, ext)|, out);
    }
    AtParts(s, src, SizeLine(digits, ext), if t then EncodeTrailers(tr) else []);
    b := Some(Last(digits, ext, tr));
  }

  lemma {:induction false} AcceptBody(t: bool, s: seq<byte>, src: nat, out: seq<byte>) returns (b: Body)
    requires src <= |s| && |out| <= src && Run(START, t, s, src, out).verdict == Complete
    ensures ValidBody(b, t) && At(s, src, Encode(b, t))
    decreases |s| - src
  {
    hide Run;
    var last, c := AcceptFirst(t, s, src, out);
    if last.Some? {
      b := last.value;
    } else {
      ChunkRun(t, s, src, out, c);
      var tail := AcceptBody(t, s, src + |EncodeChunk(c)|, out + c.data);
      AtParts(s, src, EncodeChunk(c), Encode(tail, t));
      b := More(c, tail);
    }
  }

  /** The decoder accepts exactly the encoded bodies, and gives their data and the number of bytes left over. */
  lemma {:induction false} AcceptsExactlyBodies(d: Session, s: seq<byte>)
    requires d.core == START
    ensures Call(d, s).ret >= 0 <==> exists b :: ValidBody(b, d.trailer) && Encode(b, d.trailer) <= s
    ensures forall b :: ValidBody(b, d.trailer) && Encode(b, d.trailer) <= s ==>
              var n := |Encode(b, d.trailer)|;
              Call(d, s).out == Data(b) && Call(d, s).rest == s[n..] && Call(d, s).ret == |s| - n
  {
    hide Run;
    var t := d.trailer;
    forall b | ValidBody(b, t) && Encode(b, t) <= s
      ensures Call(d, s).ret == |s| - |Encode(b, t)| >= 0
      ensures Call(d, s).out == Data(b) && Call(d, s).rest == s[|Encode(b, t)|..]
    {
      AtPrefix(s, Encode(b, t));
      BodyRun(t, s, 0, [], b);
      assert [] + Data(b) == Data(b);
    }
    if Call(d, s).ret >= 0 {
      var b := AcceptBody(t, s, 0, []);
      AtPrefix(s, Encode(b, t));
    }
  }
}
