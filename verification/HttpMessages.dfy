/**
 The request heads the parser accepts, as a grammar, and where their parts lie.  Rendered heads
 parse to exactly their parts, and nothing else parses.
 */
module HttpMessages {
  import opened Bytes
  import opened HttpGrammar

  datatype LineEnd = Lf | CrLf

  /** A header value with the blanks before (after the colon) and behind it, or a continuation line. */
  datatype Field =
    | Named(name: seq<byte>, blanks: seq<byte>, value: seq<byte>, trail: seq<byte>, eol: LineEnd)
    | Folded(value: seq<byte>, trail: seq<byte>, eol: LineEnd)

  datatype Fields = EmptyLine(end: LineEnd) | More(head: Field, tail: Fields)

  datatype Line = Line(verb: seq<byte>, gap1: nat, path: seq<byte>, gap2: nat, minor: nat, eol: LineEnd)

  datatype Head = Head(lead: Option<LineEnd>, line: Line, fields: Fields)

  predicate IsToken(t: seq<byte>)
  {
    t != [] && forall k :: 0 <= k < |t| ==> IsTchar(t[k])
  }

  predicate IsPath(t: seq<byte>)
  {
    t != [] && forall k :: 0 <= k < |t| ==> t[k] != SP && !IsControl(t[k])
  }

  predicate AllBlank(t: seq<byte>)
  {
    forall k :: 0 <= k < |t| ==> IsBlank(t[k])
  }

  /** Text that no blank ends. */
  predicate IsValue(t: seq<byte>)
  {
    (forall k :: 0 <= k < |t| ==> !EndsText(t[k])) && (t != [] ==> !IsBlank(t[|t| - 1]))
  }

  predicate ValidField(f: Field, first: bool)
  {
    match f
    case Named(name, blanks, value, trail, _) =>
      && IsToken(name) && AllBlank(blanks) && IsValue(value) && AllBlank(trail)
      && (if value == [] then trail == [] else !IsBlank(value[0]))
    case Folded(value, trail, _) =>
      !first && IsValue(value) && AllBlank(trail) && value + trail != [] && IsBlank((value + trail)[0])
  }

  function Count(fs: Fields): nat { if fs.EmptyLine? then 0 else 1 + Count(fs.tail) }

  predicate ValidFields(fs: Fields, first: bool)
  {
    fs.More? ==> ValidField(fs.head, first) && ValidFields(fs.tail, false)
  }

  predicate ValidLine(l: Line)
  {
    IsToken(l.verb) && l.gap1 > 0 && IsPath(l.path) && l.gap2 > 0 && l.minor <= 9
  }

  predicate ValidHead(h: Head, max: nat)
  {
    ValidLine(h.line) && ValidFields(h.fields, true) && Count(h.fields) <= max
  }

  function RenderEol(e: LineEnd): seq<byte> { if e.Lf? then [LF] else [CR, LF] }

  function Spaces(n: nat): (s: seq<byte>)
    ensures |s| == n && forall k :: 0 <= k < n ==> s[k] == SP
  {
    seq(n, _ => SP)
  }

  function NameText(f: Field): seq<byte> { if f.Named? then f.name + [COLON] + f.blanks else [] }

  function RenderField(f: Field): seq<byte>
  {
    NameText(f) + (f.value + f.trail) + RenderEol(f.eol)
  }

  function RenderFields(fs: Fields): seq<byte>
  {
    match fs
    case EmptyLine(e) => RenderEol(e)
    case More(f, tail) => RenderField(f) + RenderFields(tail)
  }

  function VersionText(minor: nat): seq<byte>
    requires minor <= 9
  {
    [0x48, 0x54, 0x54, 0x50, 0x2F, 0x31, 0x2E, 0x30 + minor]
  }

  function RenderLine(l: Line): seq<byte>
    requires ValidLine(l)
  {
    (l.verb + Spaces(l.gap1)) + (l.path + Spaces(l.gap2)) + VersionText(l.minor) + RenderEol(l.eol)
  }

  function RenderLead(lead: Option<LineEnd>): seq<byte> { if lead.None? then [] else RenderEol(lead.value) }

  function Render(h: Head): seq<byte>
    requires ValidLine(h.line)
  {
    RenderLead(h.lead) + RenderLine(h.line) + RenderFields(h.fields)
  }

  // ---------------------------------------------------------------- where the parts lie

  function PartsOfLine(l: Line, at: nat): LineParts
  {
    var p := at + |l.verb| + l.gap1;
    LineParts(Span(at, at + |l.verb|), Span(p, p + |l.path|), l.minor)
  }

  function FieldParts(f: Field, at: nat): Header
  {
    var v := at + |NameText(f)|;
    Header(if f.Named? then Some(Span(at, at + |f.name|)) else None, Span(v, v + |f.value|))
  }

  function FieldsParts(fs: Fields, at: nat): seq<Header>
  {
    if fs.EmptyLine? then [] else [FieldParts(fs.head, at)] + FieldsParts(fs.tail, at + |RenderField(fs.head)|)
  }

  function Parts(h: Head): Request
    requires ValidLine(h.line)
  {
    var at := |RenderLead(h.lead)|;
    Request(PartsOfLine(h.line, at), FieldsParts(h.fields, at + |RenderLine(h.line)|))
  }

  // ---------------------------------------------------------------- rendered heads parse

  lemma {:induction false} TokenRun(s: seq<byte>, i: nat, j: nat, stop: byte)
    requires i <= j < |s| && s[j] == stop && forall k :: i <= k < j ==> IsTchar(s[k]) && s[k] != stop
    ensures TokenEnd(s, i, stop).EndsAt(j)
    decreases j - i
  {
    if i == j {
    } else {
      TokenRun(s, i + 1, j, stop);
    }
  }

  lemma {:induction false} PathRun(s: seq<byte>, i: nat, j: nat)
    requires i <= j < |s| && s[j] == SP && forall k :: i <= k < j ==> s[k] != SP && !IsControl(s[k])
    ensures PathEnd(s, i).EndsAt(j)
    decreases j - i
  {
    if i == j {
    } else {
      PathRun(s, i + 1, j);
    }
  }

  lemma {:induction false} SpacesRun(s: seq<byte>, i: nat, j: nat)
    requires i <= j < |s| && s[j] != SP && forall k :: i <= k < j ==> s[k] == SP
    ensures SkipSpaces(s, i).EndsAt(j)
    decreases j - i
  {
    if i == j {
    } else {
      SpacesRun(s, i + 1, j);
    }
  }

  lemma {:induction false} BlanksRun(s: seq<byte>, i: nat, j: nat)
    requires i <= j < |s| && !IsBlank(s[j]) && forall k :: i <= k < j ==> IsBlank(s[k])
    ensures SkipBlanks(s, i).EndsAt(j)
    decreases j - i
  {
    if i == j {
    } else {
      BlanksRun(s, i + 1, j);
    }
  }

  lemma {:induction false} TextRun(s: seq<byte>, i: nat, j: nat)
    requires i <= j < |s| && NewLine(s, j).Ok? && forall k :: i <= k < j ==> !EndsText(s[k])
    ensures TextEnd(s, i).EndsAt(NewLine(s, j).next) && TextEnd(s, i).value == j
    decreases j - i
  {
    if i == j {
    } else {
      TextRun(s, i + 1, j);
    }
  }

  lemma {:induction false} TrimRun(s: seq<byte>, start: nat, e: nat, end: nat)
    requires start <= e <= end <= |s| && forall k :: e <= k < end ==> IsBlank(s[k])
    requires start < e ==> !IsBlank(s[e - 1])
    ensures TrimEnd(s, start, end) == e
    decreases end
  {
    if e == end {
    } else {
      TrimRun(s, start, e, end - 1);
    }
  }

  lemma {:induction false} EolRun(s: seq<byte>, i: nat, e: LineEnd)
    requires At(s, i, RenderEol(e))
    ensures NewLine(s, i).EndsAt(i + |RenderEol(e)|) && i < |s| && (s[i] == CR || s[i] == LF)
  {
    AtElements(s, i, RenderEol(e));
    assert s[i] == RenderEol(e)[0];
    assert e.CrLf? ==> s[i + 1] == RenderEol(e)[1];
  }

  lemma {:induction false} VersionRun(s: seq<byte>, i: nat, minor: nat)
    requires minor <= 9 && At(s, i, VersionText(minor)) && i + 8 < |s|
    ensures Version(s, i).EndsAt(i + 8) && Version(s, i).value == minor
  {
    var v := VersionText(minor);
    AtElements(s, i, v);
    assert s[i] == v[0] && s[i + 1] == v[1] && s[i + 2] == v[2] && s[i + 3] == v[3];
    assert s[i + 4] == v[4] && s[i + 5] == v[5] && s[i + 6] == v[6] && s[i + 7] == v[7];
  }

  /** A run of characters at `i`, then SPs, then something else. */
  lemma {:induction false} TokenThenSpaces(s: seq<byte>, i: nat, t: seq<byte>, gap: nat)
    requires At(s, i, t + Spaces(gap)) && gap > 0
    requires i + |t| + gap < |s| && s[i + |t| + gap] != SP
    ensures IsToken(t) ==> TokenEnd(s, i, SP).EndsAt(i + |t|)
    ensures IsPath(t) ==> PathEnd(s, i).EndsAt(i + |t|)
    ensures SkipSpaces(s, i + |t| + 1).EndsAt(i + |t| + gap)
  {
    AtElements(s, i, t + Spaces(gap));
    if IsToken(t) {
      TokenRun(s, i, i + |t|, SP);
    }
    if IsPath(t) {
      PathRun(s, i, i + |t|);
    }
    SpacesRun(s, i + |t| + 1, i + |t| + gap);
  }

  lemma {:induction false} AtLine(s: seq<byte>, i: nat, l: Line)
    requires ValidLine(l) && At(s, i, RenderLine(l))
    ensures var p := i + |l.verb| + l.gap1;
            var v := p + |l.path| + l.gap2;
            && At(s, i, l.verb + Spaces(l.gap1)) && At(s, p, l.path + Spaces(l.gap2)) && s[p] != SP && s[v] != SP
            && At(s, v, VersionText(l.minor)) && At(s, v + 8, RenderEol(l.eol))
  {
    var a, b, version := l.verb + Spaces(l.gap1), l.path + Spaces(l.gap2), VersionText(l.minor);
    AtParts(s, i, a + b + version, RenderEol(l.eol));
    AtParts(s, i, a + b, version);
    AtParts(s, i, a, b);
    AtElements(s, i + |a|, b);
    AtElements(s, i + |a + b|, version);
    assert s[i + |a|] == b[0] && s[i + |a + b|] == version[0];
  }

  lemma {:induction false} LineFromPieces(s: seq<byte>, line: LineParts, v: nat, eol: nat)
    requires line.methodName.start < line.methodName.end < |s| && line.path.start < line.path.end < |s|
             && v <= eol <= |s|
    requires line.path.start <= |s| && TokenEnd(s, line.methodName.start, SP).EndsAt(line.methodName.end)
    requires SkipSpaces(s, line.methodName.end + 1).EndsAt(line.path.start)
    requires PathEnd(s, line.path.start).EndsAt(line.path.end) && SkipSpaces(s, line.path.end + 1).EndsAt(v)
    requires Version(s, v).EndsAt(eol) && Version(s, v).value == line.minorVersion && NewLine(s, eol).Ok?
    ensures RequestLine(s, line.methodName.start).EndsAt(NewLine(s, eol).next)
    ensures RequestLine(s, line.methodName.start).value == line
  {
  }

  lemma {:induction false} LineRun(s: seq<byte>, i: nat, l: Line)
    requires ValidLine(l) && At(s, i, RenderLine(l))
    ensures RequestLine(s, i).EndsAt(i + |RenderLine(l)|) && RequestLine(s, i).value == PartsOfLine(l, i)
  {
    AtLine(s, i, l);
    var p := i + |l.verb| + l.gap1;
    var v := p + |l.path| + l.gap2;
    EolRun(s, v + 8, l.eol);
    VersionRun(s, v, l.minor);
    TokenThenSpaces(s, i, l.verb, l.gap1);
    TokenThenSpaces(s, p, l.path, l.gap2);
    LineFromPieces(s, PartsOfLine(l, i), v, v + 8);
  }

  /** The places of the parts of a header line. */
  ghost predicate AtField(s: seq<byte>, i: nat, f: Field)
  {
    var v := i + |NameText(f)|;
    && At(s, i, NameText(f)) && At(s, v, f.value) && At(s, v + |f.value|, f.trail)
    && At(s, v + |f.value| + |f.trail|, RenderEol(f.eol))
  }

  lemma {:induction false} AtRenderField(s: seq<byte>, i: nat, f: Field)
    ensures At(s, i, RenderField(f)) <==> AtField(s, i, f)
  {
    AtParts(s, i, NameText(f) + (f.value + f.trail), RenderEol(f.eol));
    AtParts(s, i, NameText(f), f.value + f.trail);
    AtParts(s, i + |NameText(f)|, f.value, f.trail);
  }

  lemma {:induction false} NameRun(s: seq<byte>, i: nat, f: Field, first: bool)
    requires f.Named? && ValidField(f, first) && AtField(s, i, f)
    ensures i < |s| && s[i] != CR && s[i] != LF
    ensures NamePart(s, i, first).EndsAt(i + |NameText(f)|) && NamePart(s, i, first).value == FieldParts(f, i).name
  {
    var v, b := i + |NameText(f)|, i + |f.name| + 1;
    AtElements(s, i, NameText(f));
    ValueStart(s, v, f);
    BlanksRun(s, b, v);
    TokenRun(s, i, i + |f.name|, COLON);
  }

  lemma {:induction false} ValueStart(s: seq<byte>, v: nat, f: Field)
    requires f.Named? && ValidField(f, true)
    requires At(s, v, f.value) && At(s, v + |f.value|, f.trail) && At(s, v + |f.value| + |f.trail|, RenderEol(f.eol))
    ensures v < |s| && !IsBlank(s[v])
  {
    EolRun(s, v + |f.value| + |f.trail|, f.eol);
    AtElements(s, v, f.value);
  }

  lemma {:induction false} FoldRun(s: seq<byte>, i: nat, f: Field)
    requires f.Folded? && ValidField(f, false) && AtField(s, i, f)
    ensures i < |s| && s[i] != CR && s[i] != LF && NamePart(s, i, false).EndsAt(i) && NamePart(s, i, false).value.None?
  {
    AtParts(s, i, f.value, f.trail);
    AtElements(s, i, f.value + f.trail);
  }

  lemma {:induction false} TextParts(s: seq<byte>, v: nat, f: Field)
    requires IsValue(f.value) && AllBlank(f.trail)
    requires At(s, v, f.value) && At(s, v + |f.value|, f.trail) && At(s, v + |f.value| + |f.trail|, RenderEol(f.eol))
    ensures var e := v + |f.value|;
            && TextEnd(s, v).EndsAt(e + |f.trail| + |RenderEol(f.eol)|) && TextEnd(s, v).value == e + |f.trail|
            && TrimEnd(s, v, e + |f.trail|) == e
  {
    var e := v + |f.value|;
    EolRun(s, e + |f.trail|, f.eol);
    AtElements(s, v, f.value);
    AtElements(s, e, f.trail);
    TextRun(s, v, e + |f.trail|);
    TrimRun(s, v, e, e + |f.trail|);
  }

  lemma {:induction false} FieldRun(s: seq<byte>, i: nat, f: Field, first: bool)
    requires ValidField(f, first) && AtField(s, i, f)
    ensures i < |s| && s[i] != CR && s[i] != LF
    ensures HeaderLine(s, i, first).EndsAt(i + |RenderField(f)|) && HeaderLine(s, i, first).value == FieldParts(f, i)
  {
    hide NamePart, TextEnd, TrimEnd, At, IsToken, AllBlank;
    var v := i + |NameText(f)|;
    assert i + |RenderField(f)| == v + |f.value| + |f.trail| + |RenderEol(f.eol)|;
    assert NamePart(s, i, first).EndsAt(v) && NamePart(s, i, first).value == FieldParts(f, i).name && s[i] != CR
           && s[i] != LF by {
      if f.Named? {
        NameRun(s, i, f, first);
      } else {
        FoldRun(s, i, f);
      }
    }
    TextParts(s, v, f);
  }

  lemma {:induction false} HeadersEnd(s: seq<byte>, i: nat, got: seq<Header>, max: nat, e: LineEnd)
    requires |got| <= max && At(s, i, RenderEol(e))
    ensures Headers(s, i, got, max).EndsAt(i + |RenderEol(e)|) && Headers(s, i, got, max).value == got
  {
    EolRun(s, i, e);
  }

  lemma {:induction false} HeadersStep(s: seq<byte>, i: nat, got: seq<Header>, max: nat, f: Field)
    requires ValidField(f, got == []) && |got| < max && At(s, i, RenderField(f))
    ensures Headers(s, i, got, max) == Headers(s, i + |RenderField(f)|, got + [FieldParts(f, i)], max)
  {
    AtRenderField(s, i, f);
    FieldRun(s, i, f, got == []);
  }

  lemma {:induction false} FieldsRun(s: seq<byte>, i: nat, fs: Fields, got: seq<Header>, max: nat)
    requires ValidFields(fs, got == []) && |got| + Count(fs) <= max && At(s, i, RenderFields(fs))
    ensures Headers(s, i, got, max).EndsAt(i + |RenderFields(fs)|)
            && Headers(s, i, got, max).value == got + FieldsParts(fs, i)
    decreases fs
  {
    hide HeaderLine, Headers, RenderField, RenderEol, ValidField, At;
    match fs
    case EmptyLine(e) =>
      HeadersEnd(s, i, got, max, e);
      assert got + [] == got;
    case More(f, tail) =>
      var next, h := i + |RenderField(f)|, FieldParts(f, i);
      assert got + [h] + FieldsParts(tail, next) == got + FieldsParts(fs, i);
      assert next + |RenderFields(tail)| == i + |RenderFields(fs)|;
      AtParts(s, i, RenderField(f), RenderFields(tail));
      FieldsRun(s, next, tail, got + [h], max);
      HeadersStep(s, i, got, max, f);
  }

  /** Every rendered head, whatever follows it, parses to exactly its parts and ends where it ends. */
  lemma {:induction false} RenderedHeadParses(s: seq<byte>, h: Head, max: nat)
    requires ValidHead(h, max) && Render(h) <= s
    ensures RequestHead(s, max).EndsAt(|Render(h)|) && RequestHead(s, max).value == Parts(h)
  {
    hide ValidFields, ValidLine, RequestLine, Headers, LeadingLine, RequestHead, RenderLine, RenderFields,
      RenderLead, FieldsParts, PartsOfLine, Count, At;
    var lead, line := RenderLead(h.lead), RenderLine(h.line);
    var parts := FieldsParts(h.fields, |lead| + |line|);
    assert [] + parts == parts;
    assert Parts(h) == Request(PartsOfLine(h.line, |lead|), parts);
    AtPrefix(s, Render(h));
    AtParts(s, 0, lead + line, RenderFields(h.fields));
    AtParts(s, 0, lead, line);
    LeadRun(s, h);
    LineRun(s, |lead|, h.line);
    FieldsRun(s, |lead| + |line|, h.fields, [], max);
    HeadFromPieces(s, max, |lead|, |lead| + |line|);
  }

  lemma {:induction false} HeadFromPieces(s: seq<byte>, max: nat, start: nat, fields: nat)
    requires LeadingLine(s).EndsAt(start) && start <= |s| && RequestLine(s, start).EndsAt(fields)
    requires fields <= |s| && Headers(s, fields, [], max).Ok?
    ensures RequestHead(s, max).EndsAt(Headers(s, fields, [], max).next)
    ensures RequestHead(s, max).value == Request(RequestLine(s, start).value, Headers(s, fields, [], max).value)
  {
  }

  lemma {:induction false} LeadRun(s: seq<byte>, h: Head)
    requires ValidLine(h.line) && At(s, 0, RenderLead(h.lead)) && At(s, |RenderLead(h.lead)|, RenderLine(h.line))
    ensures LeadingLine(s).EndsAt(|RenderLead(h.lead)|)
  {
    if h.lead.Some? {
      EolRun(s, 0, h.lead.value);
    } else {
      AtElements(s, 0, RenderLine(h.line));
      assert s[0] == RenderLine(h.line)[0] == h.line.verb[0];
    }
  }

  // ---------------------------------------------------------------- only rendered heads parse

  lemma {:induction false} TokenChars(s: seq<byte>, i: nat, stop: byte)
    requires i <= |s| && TokenEnd(s, i, stop).Ok?
    ensures forall k :: i <= k < TokenEnd(s, i, stop).next ==> IsTchar(s[k])
    decreases |s| - i
  {
    if s[i] != stop {
      TokenChars(s, i + 1, stop);
    }
  }

  lemma {:induction false} PathChars(s: seq<byte>, i: nat)
    requires i <= |s| && PathEnd(s, i).Ok?
    ensures var e := PathEnd(s, i).next;
            s[e] == SP && forall k :: i <= k < e ==> s[k] != SP && !IsControl(s[k])
    decreases |s| - i
  {
    if s[i] != SP {
      PathChars(s, i + 1);
    }
  }

  lemma {:induction false} SpaceChars(s: seq<byte>, i: nat)
    requires i <= |s| && SkipSpaces(s, i).Ok?
    ensures forall k :: i <= k < SkipSpaces(s, i).next ==> s[k] == SP
    decreases |s| - i
  {
    if s[i] == SP {
      SpaceChars(s, i + 1);
    }
  }

  lemma {:induction false} BlankChars(s: seq<byte>, i: nat)
    requires i <= |s| && SkipBlanks(s, i).Ok?
    ensures forall k :: i <= k < SkipBlanks(s, i).next ==> IsBlank(s[k])
    decreases |s| - i
  {
    if IsBlank(s[i]) {
      BlankChars(s, i + 1);
    }
  }

  lemma {:induction false} TextChars(s: seq<byte>, i: nat)
    requires i <= |s| && TextEnd(s, i).Ok?
    ensures var t := TextEnd(s, i);
            NewLine(s, t.value).EndsAt(t.next) && forall k :: i <= k < t.value ==> !EndsText(s[k])
    decreases |s| - i
  {
    if !EndsText(s[i]) {
      TextChars(s, i + 1);
    }
  }

  lemma {:induction false} TrimmedChars(s: seq<byte>, start: nat, end: nat)
    requires start <= end <= |s|
    ensures var e := TrimEnd(s, start, end);
            (start < e ==> !IsBlank(s[e - 1])) && forall k :: e <= k < end ==> IsBlank(s[k])
    decreases end
  {
    if start == end {
    } else if IsBlank(s[end - 1]) {
      TrimmedChars(s, start, end - 1);
    }
  }

  lemma {:induction false} AcceptEol(s: seq<byte>, i: nat) returns (e: LineEnd)
    requires i <= |s| && NewLine(s, i).Ok?
    ensures At(s, i, RenderEol(e)) && i + |RenderEol(e)| == NewLine(s, i).next
  {
    e := if s[i] == CR then CrLf else Lf;
  }

  /** `n` equal bytes from `i` on. */
  lemma {:induction false} AtSpaces(s: seq<byte>, i: nat, t: seq<byte>, gap: nat)
    requires At(s, i, t) && i + |t| + gap <= |s| && forall k :: i + |t| <= k < i + |t| + gap ==> s[k] == SP
    ensures At(s, i, t + Spaces(gap))
  {
    AtParts(s, i, t, Spaces(gap));
  }

  lemma {:induction false} AcceptToken(s: seq<byte>, i: nat) returns (t: seq<byte>, gap: nat)
    requires i <= |s| && TokenEnd(s, i, SP).Ok? && SkipSpaces(s, TokenEnd(s, i, SP).next + 1).Ok?
    requires TokenEnd(s, i, SP).next != i
    ensures IsToken(t) && gap > 0 && At(s, i, t + Spaces(gap)) && |t| == TokenEnd(s, i, SP).next - i
    ensures i + |t| + gap == SkipSpaces(s, TokenEnd(s, i, SP).next + 1).next
  {
    var m := TokenEnd(s, i, SP).next;
    TokenChars(s, i, SP);
    SpaceChars(s, m + 1);
    t, gap := s[i..m], SkipSpaces(s, m + 1).next - m;
    AtSlice(s, i, m - i);
    AtSpaces(s, i, t, gap);
  }

  lemma {:induction false} AcceptPath(s: seq<byte>, i: nat) returns (t: seq<byte>, gap: nat)
    requires i <= |s| && PathEnd(s, i).Ok? && SkipSpaces(s, PathEnd(s, i).next + 1).Ok?
    requires PathEnd(s, i).next != i
    ensures IsPath(t) && gap > 0 && At(s, i, t + Spaces(gap)) && |t| == PathEnd(s, i).next - i
    ensures i + |t| + gap == SkipSpaces(s, PathEnd(s, i).next + 1).next
  {
    var m := PathEnd(s, i).next;
    PathChars(s, i);
    SpaceChars(s, m + 1);
    t, gap := s[i..m], SkipSpaces(s, m + 1).next - m;
    AtSlice(s, i, m - i);
    AtSpaces(s, i, t, gap);
  }

  lemma {:induction false} AtVersion(s: seq<byte>, v: nat)
    requires v <= |s| && Version(s, v).Ok?
    ensures At(s, v, VersionText(Version(s, v).value))
  {
  }

  lemma {:induction false} AcceptLine(s: seq<byte>, i: nat) returns (l: Line)
    requires i <= |s| && RequestLine(s, i).Ok?
    ensures ValidLine(l) && At(s, i, RenderLine(l)) && i + |RenderLine(l)| == RequestLine(s, i).next
  {
    hide TokenEnd, PathEnd, SkipSpaces, IsToken, IsPath, At;
    var verb, gap1 := AcceptToken(s, i);
    var p := i + |verb| + gap1;
    var path, gap2 := AcceptPath(s, p);
    var v := p + |path| + gap2;
    var minor := Version(s, v).value;
    AtVersion(s, v);
    var eol := AcceptEol(s, v + 8);
    l := Line(verb, gap1, path, gap2, minor, eol);
    var a, b := verb + Spaces(gap1), path + Spaces(gap2);
    AtParts(s, i, a, b);
    AtParts(s, i, a + b, VersionText(minor));
    AtParts(s, i, a + b + VersionText(minor), RenderEol(eol));
  }

  lemma {:induction false} TwoSlices(s: seq<byte>, v: nat, e: nat, end: nat)
    requires v <= e <= end <= |s|
    ensures At(s, v, s[v..e]) && At(s, e, s[e..end]) && s[v..e] + s[e..end] == s[v..end]
  {
    AtSlice(s, v, e - v);
    AtSlice(s, e, end - e);
  }

  /** The value of a header line, the blanks behind it and the line end. */
  lemma {:induction false} AcceptText(s: seq<byte>, v: nat) returns (value: seq<byte>, trail: seq<byte>, eol: LineEnd)
    requires v <= |s| && TextEnd(s, v).Ok?
    ensures IsValue(value) && AllBlank(trail)
    ensures var e := v + |value|;
            && At(s, v, value) && At(s, e, trail) && At(s, e + |trail|, RenderEol(eol))
            && e + |trail| + |RenderEol(eol)| == TextEnd(s, v).next
            && value + trail == s[v..e + |trail|]
            && TrimEnd(s, v, TextEnd(s, v).value) == e
  {
    hide At, IsBlank, EndsText;
    var end := TextEnd(s, v).value;
    var e := TrimEnd(s, v, end);
    value, trail := s[v..e], s[e..end];
    TwoSlices(s, v, e, end);
    TextChars(s, v);
    TrimmedChars(s, v, end);
    eol := AcceptEol(s, end);
  }

  lemma {:induction false} AcceptName(s: seq<byte>, i: nat) returns (name: seq<byte>, blanks: seq<byte>)
    requires i < |s| && NamePart(s, i, true).Ok?
    ensures IsToken(name) && AllBlank(blanks) && At(s, i, name + [COLON] + blanks)
    ensures var v := NamePart(s, i, true).next; i + |name| + 1 + |blanks| == v && !IsBlank(s[v])
  {
    var e := TokenEnd(s, i, COLON).next;
    TokenChars(s, i, COLON);
    BlankChars(s, e + 1);
    var v := SkipBlanks(s, e + 1).next;
    name, blanks := s[i..e], s[e + 1..v];
    assert name + [COLON] + blanks == s[i..v];
    AtSlice(s, i, v - i);
  }

  lemma {:induction false} AcceptNamed(s: seq<byte>, i: nat) returns (f: Field)
    requires i < |s| && HeaderLine(s, i, true).Ok?
    ensures f.Named? && ValidField(f, true) && AtField(s, i, f) && i + |RenderField(f)| == HeaderLine(s, i, true).next
  {
    hide TextEnd, TrimEnd, NamePart, IsToken, AllBlank, IsValue, At, RenderEol;
    var name, blanks := AcceptName(s, i);
    var v := i + |name| + 1 + |blanks|;
    var value, trail, eol := AcceptText(s, v);
    f := Named(name, blanks, value, trail, eol);
    NamedStart(s, v, value, trail);
  }

  lemma {:induction false} NamedStart(s: seq<byte>, v: nat, value: seq<byte>, trail: seq<byte>)
    requires v < |s| && !IsBlank(s[v]) && AllBlank(trail) && At(s, v, value) && At(s, v + |value|, trail)
    ensures if value == [] then trail == [] else !IsBlank(value[0])
  {
    AtElements(s, v, value);
    AtElements(s, v + |value|, trail);
  }

  lemma {:induction false} AcceptFolded(s: seq<byte>, i: nat) returns (f: Field)
    requires i < |s| && IsBlank(s[i]) && HeaderLine(s, i, false).Ok?
    ensures f.Folded? && ValidField(f, false) && AtField(s, i, f)
            && i + |RenderField(f)| == HeaderLine(s, i, false).next
  {
    var value, trail, eol := AcceptText(s, i);
    f := Folded(value, trail, eol);
    assert i < i + |value| + |trail| by {
      if |value| + |trail| == 0 { AtElements(s, i, RenderEol(eol)); }
    }
    assert s[i..i + |value| + |trail|][0] == s[i];
  }

  lemma {:induction false} AcceptField(s: seq<byte>, i: nat, first: bool) returns (f: Field)
    requires i < |s| && s[i] != CR && s[i] != LF && HeaderLine(s, i, first).Ok?
    ensures ValidField(f, first) && At(s, i, RenderField(f)) && i + |RenderField(f)| == HeaderLine(s, i, first).next
  {
    hide NameText, RenderEol, AtField, At, IsToken, AllBlank, IsValue;
    if first || !IsBlank(s[i]) {
      assert HeaderLine(s, i, first) == HeaderLine(s, i, true);
      f := AcceptNamed(s, i);
    } else {
      f := AcceptFolded(s, i);
    }
    AtRenderField(s, i, f);
  }

  lemma {:induction false} AcceptFields(s: seq<byte>, i: nat, got: seq<Header>, max: nat) returns (fs: Fields)
    requires i <= |s| && |got| <= max && Headers(s, i, got, max).Ok?
    ensures ValidFields(fs, got == []) && |got| + Count(fs) <= max && At(s, i, RenderFields(fs))
    decreases |s| - i
  {
    hide HeaderLine, RenderField, RenderEol, ValidField, At;
    if s[i] == CR || s[i] == LF {
      var e := AcceptEol(s, i);
      fs := EmptyLine(e);
    } else {
      var h := HeaderLine(s, i, got == []);
      var f := AcceptField(s, i, got == []);
      var tail := AcceptFields(s, h.next, got + [h.value], max);
      AtParts(s, i, RenderField(f), RenderFields(tail));
      fs := More(f, tail);
    }
  }

  lemma {:induction false} AcceptHead(s: seq<byte>, max: nat) returns (h: Head)
    requires RequestHead(s, max).Ok?
    ensures StartsWith(s, h, max)
  {
    hide ValidField, ValidFields, ValidLine, RenderLine, RenderFields, RenderLead, LeadingLine, RequestLine, Headers,
      At;
    var lead := AcceptLead(s);
    var start := |RenderLead(lead)|;
    var l := AcceptLine(s, start);
    var fs := AcceptFields(s, start + |RenderLine(l)|, [], max);
    h := Head(lead, l, fs);
    AtParts(s, 0, RenderLead(lead), RenderLine(l));
    AtParts(s, 0, RenderLead(lead) + RenderLine(l), RenderFields(fs));
    AtPrefix(s, Render(h));
  }

  lemma {:induction false} AcceptLead(s: seq<byte>) returns (lead: Option<LineEnd>)
    requires LeadingLine(s).Ok?
    ensures At(s, 0, RenderLead(lead)) && |RenderLead(lead)| == LeadingLine(s).next
  {
    lead := None;
    if s[0] == CR || s[0] == LF {
      var e := AcceptEol(s, 0);
      lead := Some(e);
    }
  }

  /** A buffer parses exactly when it starts with a rendered head; `RenderedHeadParses` says to which parts. */
  lemma {:induction false} ParsesExactlyHeads(s: seq<byte>, max: nat)
    ensures RequestHead(s, max).Ok? <==> exists h :: StartsWith(s, h, max)
  {
    hide RequestHead, ValidHead, Render;
    forall h | StartsWith(s, h, max) ensures RequestHead(s, max).Ok? {
      RenderedHeadParses(s, h, max);
    }
    if RequestHead(s, max).Ok? {
      var h := AcceptHead(s, max);
      assert StartsWith(s, h, max);
    }
  }

  /** A valid head of at most `max` headers stands at the start. */
  predicate StartsWith(s: seq<byte>, h: Head, max: nat)
  {
    ValidHead(h, max) && Render(h) <= s
  }

  // ---------------------------------------------------------------- the spans lie in the head, in order

  /** From the `k`-th header on, names and values follow one another between `from` and `end`. */
  predicate InOrder(headers: seq<Header>, k: nat, from: nat, end: nat)
    requires k <= |headers|
    decreases |headers| - k
  {
    if k == |headers| then from <= end
    else
      var h := headers[k];
      && (h.name.Some? ==> from <= h.name.value.start < h.name.value.end < h.value.start)
      && from <= h.value.start <= h.value.end && InOrder(headers, k + 1, h.value.end, end)
  }

  /** The method, the path and the headers are parts of the head, one behind the other. */
  predicate Ordered(r: Request, end: nat)
  {
    && r.line.methodName.start < r.line.methodName.end < r.line.path.start < r.line.path.end
    && InOrder(r.headers, 0, r.line.path.end, end)
  }

  lemma {:induction false} InOrderShift(h: Header, headers: seq<Header>, k: nat, from: nat, end: nat)
    requires k <= |headers| && InOrder(headers, k, from, end)
    ensures InOrder([h] + headers, k + 1, from, end)
    decreases |headers| - k
  {
    if k == |headers| {
      assert k + 1 == |[h] + headers|;
    } else {
      InOrderShift(h, headers, k + 1, headers[k].value.end, end);
    }
  }

  lemma {:induction false} InOrderEarlier(headers: seq<Header>, k: nat, from: nat, from': nat, end: nat)
    requires k <= |headers| && from' <= from && InOrder(headers, k, from, end)
    ensures InOrder(headers, k, from', end)
  {
  }

  lemma {:induction false} FieldsInOrder(fs: Fields, at: nat, first: bool)
    requires ValidFields(fs, first)
    ensures InOrder(FieldsParts(fs, at), 0, at, at + |RenderFields(fs)|)
    decreases fs
  {
    match fs
    case EmptyLine(_) =>
    case More(f, tail) =>
      var h, next := FieldParts(f, at), at + |RenderField(f)|;
      FieldsInOrder(tail, next, false);
      InOrderShift(h, FieldsParts(tail, next), 0, next, next + |RenderFields(tail)|);
      InOrderEarlier([h] + FieldsParts(tail, next), 1, next, h.value.end, next + |RenderFields(tail)|);
  }

  /** The spans of a head that parses are inside it, and in order. */
  lemma {:induction false} SpansInOrder(s: seq<byte>, max: nat)
    requires RequestHead(s, max).Ok?
    ensures Ordered(RequestHead(s, max).value, RequestHead(s, max).next) && RequestHead(s, max).next <= |s|
  {
    hide RequestHead, RenderFields, FieldsParts, RenderLine;
    var h := AcceptHead(s, max);
    RenderedHeadParses(s, h, max);
    PartsInOrder(h, max);
    assert |Render(h)| <= |s|;
  }

  lemma {:induction false} PartsInOrder(h: Head, max: nat)
    requires ValidHead(h, max)
    ensures Ordered(Parts(h), |Render(h)|)
  {
    hide RenderFields, FieldsParts, ValidFields;
    var lead, line := |RenderLead(h.lead)|, |RenderLine(h.line)|;
    FieldsInOrder(h.fields, lead + line, true);
    InOrderEarlier(FieldsParts(h.fields, lead + line), 0, lead + line, Parts(h).line.path.end, |Render(h)|);
  }
}
