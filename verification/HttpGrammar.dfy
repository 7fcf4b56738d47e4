/**
 The request parser as functions of the buffer: what each piece of a request head is, byte by byte
 (sections 3.1.1, 3.2 and 3.2.6 of RFC 7230, with the parser's liberties).

 Every function has three outcomes: the piece is there, the bytes cannot be a request (-1), or the
 buffer ends too early to tell (-2).
 */
module HttpGrammar {
  import opened Bytes

  datatype Result<+T> = Ok(value: T, next: nat) | Fail | Partial
  {
    predicate EndsAt(n: nat) { Ok? && next == n }
  }

  /** A piece of the buffer: what the C code keeps as a pointer and a length. */
  datatype Span = Span(start: nat, end: nat)

  /** A continuation line of the header before it has no name. */
  datatype Header = Header(name: Option<Span>, value: Span)

  datatype LineParts = LineParts(methodName: Span, path: Span, minorVersion: nat)

  datatype Request = Request(line: LineParts, headers: seq<Header>)

  const COLON: byte := 0x3A
  const DEL: byte := 0x7F

  predicate IsBlank(b: byte) { b == SP || b == HT }

  /** `token_char_map`, 32 bytes a row. */
  const TOKEN_CHAR_MAP_1: seq<nat> := [0,1,0,1,1,1,1,1,0,0,1,1,0,1,1,0,1,1,1,1,1,1,1,1,1,1,0,0,0,0,0,0]
  const TOKEN_CHAR_MAP_2: seq<nat> := [0,1,1,1,1,1,1,1,1,1,1,1,1,1,1,1,1,1,1,1,1,1,1,1,1,1,1,0,0,0,1,1]
  const TOKEN_CHAR_MAP_3: seq<nat> := [1,1,1,1,1,1,1,1,1,1,1,1,1,1,1,1,1,1,1,1,1,1,1,1,1,1,1,0,1,0,1,0]

  predicate IsTokenChar(b: byte)
  {
    if b < 0x20 then false
    else if b < 0x40 then TOKEN_CHAR_MAP_1[b - 0x20] != 0
    else if b < 0x60 then TOKEN_CHAR_MAP_2[b - 0x40] != 0
    else if b < 0x80 then TOKEN_CHAR_MAP_3[b - 0x60] != 0
    else false
  }

  /** `tchar` of section 3.2.6 of RFC 7230: DIGIT, ALPHA and ! # $ % & ' * + - . ^ _ ` | ~. */
  predicate IsTchar(b: byte)
  {
    || 0x30 <= b <= 0x39 || 0x41 <= b <= 0x5A || 0x5E <= b <= 0x7A || 0x23 <= b <= 0x27
    || b == 0x21 || b == 0x2A || b == 0x2B || b == 0x2D || b == 0x2E || b == 0x7C || b == 0x7E
  }

  lemma {:induction false} TokenCharsAreTchars(b: byte)
    ensures IsTokenChar(b) <==> IsTchar(b)
  {
  }

  /** `parse_token`: the end of the token that starts at `i` and must be followed by `stop`. */
  function TokenEnd(s: seq<byte>, i: nat, stop: byte): (r: Result<()>)
    requires i <= |s|
    ensures r.Ok? ==> i <= r.next < |s| && s[r.next] == stop
    decreases |s| - i
  {
    if i == |s| then Partial
    else if s[i] == stop then Ok((), i)
    else if !IsTchar(s[i]) then Fail
    else TokenEnd(s, i + 1, stop)
  }

  /** Bytes that no path may contain. */
  predicate IsControl(b: byte) { b < SP || b == DEL }

  /** `ADVANCE_TOKEN`: the SP after the path that starts at `i`. */
  function PathEnd(s: seq<byte>, i: nat): (r: Result<()>)
    requires i <= |s|
    ensures r.Ok? ==> i <= r.next < |s|
    decreases |s| - i
  {
    if i == |s| then Partial
    else if s[i] == SP then Ok((), i)
    else if IsControl(s[i]) then Fail
    else PathEnd(s, i + 1)
  }

  /** A line end at `i`: LF or CR LF. */
  function NewLine(s: seq<byte>, i: nat): (r: Result<()>)
    requires i <= |s|
    ensures r.Ok? ==> i < r.next <= i + 2 && r.next <= |s|
  {
    if i == |s| then Partial
    else if s[i] == CR then
      if i + 1 == |s| then Partial else if s[i + 1] == LF then Ok((), i + 2) else Fail
    else if s[i] == LF then Ok((), i + 1)
    else Fail
  }

  /** Bytes that end a header value. */
  predicate EndsText(b: byte) { IsControl(b) && b != HT }

  /** `get_token_to_eol`: the end of the text that starts at `i`, and the start of the next line. */
  function TextEnd(s: seq<byte>, i: nat): (r: Result<nat>)
    requires i <= |s|
    ensures r.Ok? ==> i <= r.value < r.next <= |s|
    decreases |s| - i
  {
    if i == |s| then Partial
    else if EndsText(s[i]) then
      match NewLine(s, i)
      case Ok(_, next) => Ok(i, next)
      case Fail => Fail
      case Partial => Partial
    else TextEnd(s, i + 1)
  }

  /** The first byte from `i` on that is not SP. */
  function SkipSpaces(s: seq<byte>, i: nat): (r: Result<()>)
    requires i <= |s|
    ensures !r.Fail? && (r.Ok? ==> i <= r.next < |s| && s[r.next] != SP)
    decreases |s| - i
  {
    if i == |s| then Partial else if s[i] == SP then SkipSpaces(s, i + 1) else Ok((), i)
  }

  function SkipBlanks(s: seq<byte>, i: nat): (r: Result<()>)
    requires i <= |s|
    ensures !r.Fail? && (r.Ok? ==> i <= r.next < |s| && !IsBlank(s[r.next]))
    decreases |s| - i
  {
    if i == |s| then Partial else if IsBlank(s[i]) then SkipBlanks(s, i + 1) else Ok((), i)
  }

  /** The end of `s[start..end]` without the blanks at its end. */
  function TrimEnd(s: seq<byte>, start: nat, end: nat): (e: nat)
    requires start <= end <= |s|
    ensures start <= e <= end
    decreases end
  {
    if start < end && IsBlank(s[end - 1]) then TrimEnd(s, start, end - 1) else end
  }

  /** "HTTP/1." stands in `s` at `i`. */
  predicate AtHttp1(s: seq<byte>, i: nat)
    requires i + 7 <= |s|
  {
    && s[i] == 0x48 && s[i + 1] == 0x54 && s[i + 2] == 0x54 && s[i + 3] == 0x50
    && s[i + 4] == 0x2F && s[i + 5] == 0x31 && s[i + 6] == 0x2E
  }

  /** `parse_http_version`: needs nine bytes to say anything. */
  function Version(s: seq<byte>, i: nat): (r: Result<nat>)
    requires i <= |s|
    ensures r.Ok? ==> r.value <= 9 && r.next == i + 8 && r.next < |s|
  {
    if |s| - i < 9 then Partial
    else if AtHttp1(s, i) && 0x30 <= s[i + 7] <= 0x39 then Ok(s[i + 7] - 0x30, i + 8)
    else Fail
  }

  /** The name of a header and the blanks after its colon; none for a continuation line. */
  function NamePart(s: seq<byte>, i: nat, first: bool): (r: Result<Option<Span>>)
    requires i < |s|
    ensures r.Ok? ==> i <= r.next < |s|
  {
    if !first && IsBlank(s[i]) then Ok(None, i)
    else
      match TokenEnd(s, i, COLON)
      case Ok(_, e) => if e == i then Fail else NameBlanks(s, Span(i, e))
      case Fail => Fail
      case Partial => Partial
  }

  function NameBlanks(s: seq<byte>, name: Span): (r: Result<Option<Span>>)
    requires name.end < |s|
    ensures r.Ok? ==> name.end < r.next < |s|
  {
    match SkipBlanks(s, name.end + 1)
    case Ok(_, next) => Ok(Some(name), next)
    case Fail => Fail
    case Partial => Partial
  }

  function HeaderLine(s: seq<byte>, i: nat, first: bool): (r: Result<Header>)
    requires i < |s|
    ensures r.Ok? ==> i < r.next <= |s|
  {
    match NamePart(s, i, first)
    case Ok(name, start) => HeaderText(s, name, start)
    case Fail => Fail
    case Partial => Partial
  }

  /** The rest of a header line; blanks at the end of the text do not belong to the value. */
  function HeaderText(s: seq<byte>, name: Option<Span>, start: nat): (r: Result<Header>)
    requires start <= |s|
    ensures r.Ok? ==> start < r.next <= |s|
  {
    match TextEnd(s, start)
    case Ok(end, next) => Ok(Header(name, Span(start, TrimEnd(s, start, end))), next)
    case Fail => Fail
    case Partial => Partial
  }

  /** `parse_headers`: the header lines from `i` on and the empty line; `got` are the headers before `i`. */
  function Headers(s: seq<byte>, i: nat, got: seq<Header>, max: nat): (r: Result<seq<Header>>)
    requires i <= |s| && |got| <= max
    ensures r.Ok? ==> i < r.next <= |s| && |r.value| <= max
    decreases |s| - i
  {
    if i == |s| then Partial
    else if s[i] == CR || s[i] == LF then
      match NewLine(s, i)
      case Ok(_, next) => Ok(got, next)
      case Fail => Fail
      case Partial => Partial
    else if |got| == max then Fail
    else
      match HeaderLine(s, i, got == [])
      case Ok(h, next) => Headers(s, next, got + [h], max)
      case Fail => Fail
      case Partial => Partial
  }

  /** One empty line before the request line is skipped. */
  function LeadingLine(s: seq<byte>): (r: Result<()>)
    ensures r.Ok? ==> r.next <= |s|
  {
    if s == [] then Partial else if s[0] == CR || s[0] == LF then NewLine(s, 0) else Ok((), 0)
  }

  /** The request line, one piece after the other. */
  function RequestLine(s: seq<byte>, i: nat): (r: Result<LineParts>)
    requires i <= |s|
    ensures r.Ok? ==> i < r.next <= |s|
  {
    match TokenEnd(s, i, SP)
    case Ok(_, m) => LineAfterMethod(s, Span(i, m))
    case Fail => Fail
    case Partial => Partial
  }

  function LineAfterMethod(s: seq<byte>, m: Span): (r: Result<LineParts>)
    requires m.end < |s|
    ensures r.Ok? ==> m.end < r.next <= |s|
  {
    match SkipSpaces(s, m.end + 1)
    case Ok(_, p) => LineAtPath(s, m, p)
    case Fail => Fail
    case Partial => Partial
  }

  function LineAtPath(s: seq<byte>, m: Span, p: nat): (r: Result<LineParts>)
    requires p <= |s|
    ensures r.Ok? ==> p < r.next <= |s|
  {
    match PathEnd(s, p)
    case Ok(_, e) => LineAfterPath(s, m, Span(p, e))
    case Fail => Fail
    case Partial => Partial
  }

  function LineAfterPath(s: seq<byte>, m: Span, p: Span): (r: Result<LineParts>)
    requires p.end < |s|
    ensures r.Ok? ==> p.end < r.next <= |s|
  {
    match SkipSpaces(s, p.end + 1)
    case Ok(_, v) => if m.start == m.end || p.start == p.end then Fail else LineAtVersion(s, m, p, v)
    case Fail => Fail
    case Partial => Partial
  }

  function LineAtVersion(s: seq<byte>, m: Span, p: Span, v: nat): (r: Result<LineParts>)
    requires v <= |s|
    ensures r.Ok? ==> v < r.next <= |s|
  {
    match Version(s, v)
    case Ok(minor, eol) => LineAtEnd(s, LineParts(m, p, minor), eol)
    case Fail => Fail
    case Partial => Partial
  }

  function LineAtEnd(s: seq<byte>, line: LineParts, eol: nat): (r: Result<LineParts>)
    requires eol <= |s|
    ensures r.Ok? ==> eol < r.next <= |s|
  {
    match NewLine(s, eol)
    case Ok(_, next) => Ok(line, next)
    case Fail => Fail
    case Partial => Partial
  }

  /** `parse_request`. */
  function RequestHead(s: seq<byte>, max: nat): (r: Result<Request>)
    ensures r.Ok? ==> 0 < r.next <= |s| && |r.value.headers| <= max
  {
    match LeadingLine(s)
    case Ok(_, start) => HeadAtLine(s, start, max)
    case Fail => Fail
    case Partial => Partial
  }

  function HeadAtLine(s: seq<byte>, start: nat, max: nat): (r: Result<Request>)
    requires start <= |s|
    ensures r.Ok? ==> start < r.next <= |s| && |r.value.headers| <= max
  {
    match RequestLine(s, start)
    case Ok(line, fields) => HeadAtFields(s, line, fields, max)
    case Fail => Fail
    case Partial => Partial
  }

  function HeadAtFields(s: seq<byte>, line: LineParts, fields: nat, max: nat): (r: Result<Request>)
    requires fields <= |s|
    ensures r.Ok? ==> fields < r.next <= |s| && |r.value.headers| <= max
  {
    match Headers(s, fields, [], max)
    case Ok(headers, end) => Ok(Request(line, headers), end)
    case Fail => Fail
    case Partial => Partial
  }

  /** `is_complete`: the end of the first empty line from `i` on, after `count` line ends in a row. */
  function EmptyLineEnd(s: seq<byte>, i: nat, count: nat): (r: Result<()>)
    requires i <= |s| && count <= 1
    ensures r.Ok? ==> i < r.next <= |s|
    decreases |s| - i
  {
    if i == |s| then Partial
    else if s[i] == CR || s[i] == LF then
      match NewLine(s, i)
      case Ok(_, next) => if count == 1 then Ok((), next) else EmptyLineEnd(s, next, 1)
      case Fail => Fail
      case Partial => Partial
    else EmptyLineEnd(s, i + 1, 0)
  }

  /** `phr_parse_request`; `lastLen` is the length that an earlier call found incomplete, or 0. */
  function ParseRequest(s: seq<byte>, max: nat, lastLen: nat): Result<Request>
    requires lastLen <= |s|
  {
    if lastLen == 0 then RequestHead(s, max)
    else
      match EmptyLineEnd(s, if lastLen < 3 then 0 else lastLen - 3, 0)
      case Ok(_, _) => RequestHead(s, max)
      case Fail => Fail
      case Partial => Partial
  }
}
