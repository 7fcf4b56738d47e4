/**
 The request parser as it runs: cursors moved by loops, with the SSE4.2 scan or the unrolled scan in
 front of each byte loop.  Every method is proved to give the result of the byte-by-byte function
 in `HttpGrammar`, whichever way it was built.
 */
module HttpParser {
  import opened Bytes
  import opened HttpGrammar
  import Messages = HttpMessages

  type Ranges = seq<(byte, byte)>

  const TOKEN_RANGES: Ranges :=
    [(0x00, 0x20), (0x22, 0x22), (0x28, 0x29), (0x2C, 0x2C), (0x2F, 0x2F), (0x3A, 0x40), (0x5B, 0x5D), (0x7B, 0xFF)]
  const PATH_RANGES: Ranges := [(0x00, 0x20), (0x7F, 0x7F)]
  const TEXT_RANGES: Ranges := [(0x00, 0x08), (0x0A, 0x1F), (0x7F, 0x7F)]

  predicate InRanges(b: byte, ranges: Ranges)
  {
    exists k :: 0 <= k < |ranges| && ranges[k].0 <= b <= ranges[k].1
  }

  /** `_mm_cmpestri` over 16 bytes: the index of the first one in a range, or 16. */
  function FirstInRanges(block: seq<byte>, ranges: Ranges): (r: nat)
    ensures r <= |block| && (r < |block| ==> InRanges(block[r], ranges))
    ensures forall k :: 0 <= k < r ==> !InRanges(block[k], ranges)
  {
    if block == [] || InRanges(block[0], ranges) then 0
    else
      var r := FirstInRanges(block[1..], ranges);
      assert forall k :: 1 <= k <= r ==> block[k] == block[1..][k - 1];
      1 + r
  }

  /** Skips bytes outside `ranges`, sixteen at a time if the processor can. */
  method FindCharFast(s: seq<byte>, i: nat, ranges: Ranges, sse: bool) returns (j: nat, found: bool)
    requires i <= |s|
    ensures i <= j <= |s| && forall k :: i <= k < j ==> !InRanges(s[k], ranges)
    ensures found ==> j < |s| && InRanges(s[j], ranges)
  {
    j, found := i, false;
    if sse && |s| - i >= 16 {
      var left := (|s| - i) - (|s| - i) % 16;
      while left != 0
        invariant i <= j && 0 <= left && j + left <= |s| && left % 16 == 0
        invariant forall k :: i <= k < j ==> !InRanges(s[k], ranges)
      {
        var block := s[j..j + 16];
        var r := FirstInRanges(block, ranges);
        assert forall k :: j <= k < j + r ==> s[k] == block[k - j];
        j := j + r;
        if r != 16 {
          found := true;
          break;
        }
        left := left - 16;
      }
    }
  }

  // ---------------------------------------------------------------- what the fast scans may skip

  lemma {:induction false} TokenRangesStop(b: byte)
    requires !IsTchar(b) || b == SP || b == COLON
    ensures InRanges(b, TOKEN_RANGES)
  {
    var r := TOKEN_RANGES;
    assert || r[0].0 <= b <= r[0].1 || r[1].0 <= b <= r[1].1 || r[2].0 <= b <= r[2].1 || r[3].0 <= b <= r[3].1
           || r[4].0 <= b <= r[4].1 || r[5].0 <= b <= r[5].1 || r[6].0 <= b <= r[6].1 || r[7].0 <= b <= r[7].1;
  }

  lemma {:induction false} PathRangesStop(b: byte)
    requires b == SP || IsControl(b)
    ensures InRanges(b, PATH_RANGES)
  {
    var r := PATH_RANGES;
    assert r[0].0 <= b <= r[0].1 || r[1].0 <= b <= r[1].1;
  }

  lemma {:induction false} TextRangesAreEndings(b: byte)
    ensures InRanges(b, TEXT_RANGES) <==> EndsText(b)
  {
    var r := TEXT_RANGES;
    if EndsText(b) {
      assert (r[0].0 <= b <= r[0].1) || (r[1].0 <= b <= r[1].1) || (r[2].0 <= b <= r[2].1);
    }
  }

  lemma {:induction false} TokenSkip(s: seq<byte>, i: nat, j: nat, stop: byte)
    requires i <= j <= |s| && forall k :: i <= k < j ==> IsTchar(s[k]) && s[k] != stop
    ensures TokenEnd(s, i, stop) == TokenEnd(s, j, stop)
    decreases j - i
  {
    if i == j {
    } else {
      TokenSkip(s, i + 1, j, stop);
    }
  }

  lemma {:induction false} PathSkip(s: seq<byte>, i: nat, j: nat)
    requires i <= j <= |s| && forall k :: i <= k < j ==> s[k] != SP && !IsControl(s[k])
    ensures PathEnd(s, i) == PathEnd(s, j)
    decreases j - i
  {
    if i == j {
    } else {
      PathSkip(s, i + 1, j);
    }
  }

  lemma {:induction false} TextSkip(s: seq<byte>, i: nat, j: nat)
    requires i <= j <= |s| && forall k :: i <= k < j ==> !EndsText(s[k])
    ensures TextEnd(s, i) == TextEnd(s, j)
    decreases j - i
  {
    if i == j {
    } else {
      TextSkip(s, i + 1, j);
    }
  }

  // ---------------------------------------------------------------- the scanning loops

  method ParseToken(s: seq<byte>, i: nat, stop: byte, sse: bool) returns (r: Result<()>)
    requires i <= |s| && (stop == SP || stop == COLON)
    ensures r == TokenEnd(s, i, stop)
  {
    var j, found := FindCharFast(s, i, TOKEN_RANGES, sse);
    forall k | i <= k < j ensures IsTchar(s[k]) && s[k] != stop {
      if !IsTchar(s[k]) || s[k] == stop { TokenRangesStop(s[k]); }
    }
    TokenSkip(s, i, j, stop);
    if !found && j == |s| {
      return Partial;
    }
    while true
      invariant j < |s| && TokenEnd(s, j, stop) == TokenEnd(s, i, stop)
      decreases |s| - j
    {
      TokenCharsAreTchars(s[j]);
      if s[j] == stop {
        return Ok((), j);
      } else if !IsTokenChar(s[j]) {
        return Fail;
      }
      j := j + 1;
      if j == |s| {
        return Partial;
      }
    }
  }

  predicate IsPrintableAscii(b: byte) { 0x20 <= b < 0x7F }

  method AdvanceToken(s: seq<byte>, i: nat, sse: bool) returns (r: Result<()>)
    requires i <= |s|
    ensures r == PathEnd(s, i)
  {
    var j, found := FindCharFast(s, i, PATH_RANGES, sse);
    forall k | i <= k < j ensures s[k] != SP && !IsControl(s[k]) {
      if s[k] == SP || IsControl(s[k]) { PathRangesStop(s[k]); }
    }
    PathSkip(s, i, j);
    if !found && j == |s| {
      return Partial;
    }
    while true
      invariant j < |s| && PathEnd(s, j) == PathEnd(s, i)
      decreases |s| - j
    {
      if s[j] == SP {
        return Ok((), j);
      } else if !IsPrintableAscii(s[j]) {
        if s[j] < SP || s[j] == DEL {
          return Fail;
        }
      }
      j := j + 1;
      if j == |s| {
        return Partial;
      }
    }
  }

  /** The scan in front of `get_token_to_eol`; `found` if it has reached a byte that ends the text. */
  method ScanText(s: seq<byte>, i: nat, sse: bool) returns (j: nat, found: bool)
    requires i <= |s|
    ensures i <= j <= |s| && forall k :: i <= k < j ==> !EndsText(s[k])
    ensures found ==> j < |s| && EndsText(s[j])
  {
    if sse {
      j, found := FindCharFast(s, i, TEXT_RANGES, sse);
      forall k | i <= k < |s| ensures InRanges(s[k], TEXT_RANGES) <==> EndsText(s[k]) {
        TextRangesAreEndings(s[k]);
      }
      return;
    }
    j, found := i, false;
    while |s| - j >= 8
      invariant i <= j <= |s| && forall k :: i <= k < j ==> !EndsText(s[k])
    {
      // eight steps, left at the first byte that is not printable
      var n := 0;
      while n < 8 && IsPrintableAscii(s[j + n])
        invariant n <= 8 && forall k :: j <= k < j + n ==> !EndsText(s[k])
      {
        n := n + 1;
      }
      j := j + n;
      if n < 8 {
        if (s[j] < SP && s[j] != HT) || s[j] == DEL {
          return j, true;
        }
        j := j + 1;
      }
    }
  }

  method GetTokenToEol(s: seq<byte>, i: nat, sse: bool) returns (r: Result<nat>)
    requires i <= |s|
    ensures r == TextEnd(s, i)
  {
    var j, found := ScanText(s, i, sse);
    TextSkip(s, i, j);
    if !found {
      while true
        invariant j <= |s| && TextEnd(s, j) == TextEnd(s, i)
        decreases |s| - j
      {
        if j == |s| {
          return Partial;
        }
        if !IsPrintableAscii(s[j]) {
          if (s[j] < SP && s[j] != HT) || s[j] == DEL {
            break;
          }
        }
        j := j + 1;
      }
    }
    if s[j] == CR {
      if j + 1 == |s| {
        return Partial;
      }
      if s[j + 1] != LF {
        return Fail;
      }
      return Ok(j, j + 2);
    } else if s[j] == LF {
      return Ok(j, j + 1);
    }
    return Fail;
  }

  method IsComplete(s: seq<byte>, lastLen: nat) returns (r: Result<()>)
    requires lastLen <= |s|
    ensures r == EmptyLineEnd(s, if lastLen < 3 then 0 else lastLen - 3, 0)
  {
    var i := if lastLen < 3 then 0 else lastLen - 3;
    var start, count := i, 0;
    while true
      invariant start <= i <= |s| && 0 <= count <= 1
      invariant EmptyLineEnd(s, i, count) == EmptyLineEnd(s, start, 0)
      decreases |s| - i
    {
      if i == |s| {
        return Partial;
      }
      if s[i] == CR {
        if i + 1 == |s| {
          return Partial;
        }
        if s[i + 1] != LF {
          return Fail;
        }
        i, count := i + 2, count + 1;
      } else if s[i] == LF {
        i, count := i + 1, count + 1;
      } else {
        i, count := i + 1, 0;
      }
      if count == 2 {
        return Ok((), i);
      }
    }
  }

  // ---------------------------------------------------------------- the request head

  method ParseHttpVersion(s: seq<byte>, i: nat) returns (r: Result<nat>)
    requires i <= |s|
    ensures r == Version(s, i)
  {
    if |s| - i < 9 {
      return Partial;
    }
    if s[i] != 0x48 || s[i + 1] != 0x54 || s[i + 2] != 0x54 || s[i + 3] != 0x50 || s[i + 4] != 0x2F
       || s[i + 5] != 0x31 || s[i + 6] != 0x2E {
      return Fail;
    }
    if s[i + 7] < 0x30 || 0x39 < s[i + 7] {
      return Fail;
    }
    r := Ok(s[i + 7] - 0x30, i + 8);
  }

  /** The line end tests of the request line and of the header section. */
  method ParseNewLine(s: seq<byte>, i: nat) returns (r: Result<()>)
    requires i <= |s|
    ensures r == NewLine(s, i)
  {
    if i == |s| {
      return Partial;
    }
    if s[i] == CR {
      if i + 1 == |s| {
        return Partial;
      }
      if s[i + 1] != LF {
        return Fail;
      }
      return Ok((), i + 2);
    } else if s[i] == LF {
      return Ok((), i + 1);
    }
    return Fail;
  }

  method PassSpaces(s: seq<byte>, i: nat) returns (r: Result<()>)
    requires i <= |s|
    ensures r == SkipSpaces(s, i)
  {
    var j := i;
    while j < |s| && s[j] == SP
      invariant i <= j <= |s| && SkipSpaces(s, j) == SkipSpaces(s, i)
    {
      j := j + 1;
    }
    return if j == |s| then Partial else Ok((), j);
  }

  method PassBlanks(s: seq<byte>, i: nat) returns (r: Result<()>)
    requires i <= |s|
    ensures r == SkipBlanks(s, i)
  {
    var j := i;
    while j < |s| && (s[j] == SP || s[j] == HT)
      invariant i <= j <= |s| && SkipBlanks(s, j) == SkipBlanks(s, i)
    {
      j := j + 1;
    }
    return if j == |s| then Partial else Ok((), j);
  }

  method TrimValue(s: seq<byte>, start: nat, end: nat) returns (e: nat)
    requires start <= end <= |s|
    ensures e == TrimEnd(s, start, end)
  {
    e := end;
    while e != start && (s[e - 1] == SP || s[e - 1] == HT)
      invariant start <= e <= end && TrimEnd(s, start, e) == TrimEnd(s, start, end)
    {
      e := e - 1;
    }
  }

  /** One turn of the header loop, up to the end of its line. */
  method ParseHeader(s: seq<byte>, i: nat, first: bool, sse: bool) returns (r: Result<Header>)
    requires i < |s|
    ensures r == HeaderLine(s, i, first)
  {
    var start, name := i, None;
    if first || !(s[i] == SP || s[i] == HT) {
      var e := ParseToken(s, i, COLON, sse);
      if !e.Ok? {
        return if e.Fail? then Fail else Partial;
      }
      if e.next == i {
        return Fail;
      }
      name := Some(Span(i, e.next));
      var b := PassBlanks(s, e.next + 1);
      if !b.Ok? {
        return Partial;
      }
      start := b.next;
    }
    var t := GetTokenToEol(s, start, sse);
    if !t.Ok? {
      return if t.Fail? then Fail else Partial;
    }
    var e := TrimValue(s, start, t.value);
    r := Ok(Header(name, Span(start, e)), t.next);
  }

  /** Fills `headers` from the front; `num` of them are valid. */
  method ParseHeaders(s: seq<byte>, i0: nat, headers: array<Header>, sse: bool) returns (r: Result<()>, num: nat)
    requires i0 <= |s|
    modifies headers
    ensures match Headers(s, i0, [], headers.Length)
            case Ok(hs, next) => r == Ok((), next) && num == |hs| && headers[..num] == hs
            case Fail => r == Fail
            case Partial => r == Partial
  {
    var i := i0;
    num := 0;
    while true
      invariant num <= headers.Length && i <= |s|
      invariant Headers(s, i, headers[..num], headers.Length) == Headers(s, i0, [], headers.Length)
      decreases |s| - i
    {
      if i == |s| {
        return Partial, num;
      }
      if s[i] == CR || s[i] == LF {
        r := ParseNewLine(s, i);
        return;
      }
      if num == headers.Length {
        return Fail, num;
      }
      var h := ParseHeader(s, i, num == 0, sse);
      if !h.Ok? {
        return if h.Fail? then Fail else Partial, num;
      }
      ghost var got := headers[..num];
      headers[num] := h.value;
      num := num + 1;
      assert headers[..num] == got + [h.value];
      i := h.next;
    }
  }

  method ParseRequestLine(s: seq<byte>, i: nat, sse: bool) returns (r: Result<LineParts>)
    requires i <= |s|
    ensures r == RequestLine(s, i)
  {
    var m := ParseToken(s, i, SP, sse);
    if !m.Ok? { return if m.Fail? then Fail else Partial; }
    var p := PassSpaces(s, m.next + 1);
    if !p.Ok? { return Partial; }
    var e := AdvanceToken(s, p.next, sse);
    if !e.Ok? { return if e.Fail? then Fail else Partial; }
    var v := PassSpaces(s, e.next + 1);
    if !v.Ok? { return Partial; }
    if m.next == i || e.next == p.next { return Fail; }
    var minor := ParseHttpVersion(s, v.next);
    if !minor.Ok? { return if minor.Fail? then Fail else Partial; }
    var eol := ParseNewLine(s, minor.next);
    if !eol.Ok? { return if eol.Fail? then Fail else Partial; }
    r := Ok(LineParts(Span(i, m.next), Span(p.next, e.next), minor.value), eol.next);
  }

  /** `(int)` of a buffer offset. */
  function AsInt(n: nat): int
  {
    var m := n % 0x1_0000_0000;
    if m <= INT_MAX then m else m - 0x1_0000_0000
  }

  method ParseRequestHead(s: seq<byte>, headers: array<Header>, sse: bool) returns (r: Result<Request>)
    modifies headers
    ensures r == RequestHead(s, headers.Length)
    ensures r.Ok? ==> headers[..|r.value.headers|] == r.value.headers
  {
    var start := 0;
    if s == [] { return Partial; }
    if s[0] == CR || s[0] == LF {
      var l := ParseNewLine(s, 0);
      if !l.Ok? { return if l.Fail? then Fail else Partial; }
      start := l.next;
    }
    var line := ParseRequestLine(s, start, sse);
    if !line.Ok? { return if line.Fail? then Fail else Partial; }
    var hs, num := ParseHeaders(s, line.next, headers, sse);
    if !hs.Ok? { return if hs.Fail? then Fail else Partial; }
    r := Ok(Request(line.value, headers[..num]), hs.next);
  }

  /**
   The entry point: the number of bytes of the head, -1 or -2.  `headers.Length` is the limit that
   the caller passes in `num_headers`.  The spans of an accepted head are inside it, one behind the other.
   */
  method PhrParseRequest(s: seq<byte>, headers: array<Header>, lastLen: nat, sse: bool)
    returns (ret: int, methodName: Span, path: Span, minorVersion: int, num: nat)
    requires lastLen <= |s|
    modifies headers
    ensures match ParseRequest(s, headers.Length, lastLen)
            case Ok(q, n) => ret == AsInt(n) && methodName == q.line.methodName && path == q.line.path
                             && minorVersion == q.line.minorVersion && num == |q.headers| && headers[..num] == q.headers
                             && Messages.Ordered(q, n) && n <= |s|
            case Fail => ret == -1
            case Partial => ret == -2
  {
    hide RequestHead, EmptyLineEnd, Messages.Ordered;
    methodName, path, minorVersion, num := Span(0, 0), Span(0, 0), -1, 0;
    if lastLen != 0 {
      var c := IsComplete(s, lastLen);
      if !c.Ok? {
        ret := if c.Fail? then -1 else -2;
        return;
      }
    }
    var r := ParseRequestHead(s, headers, sse);
    match r
    case Fail => ret := -1;
    case Partial => ret := -2;
    case Ok(q, n) =>
      Messages.SpansInOrder(s, headers.Length);
      ret, methodName, path, minorVersion, num := AsInt(n), q.line.methodName, q.line.path, q.line.minorVersion,
        |q.headers|;
  }
}
