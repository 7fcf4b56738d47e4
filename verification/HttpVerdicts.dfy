/**
 When the request parser asks for more and when it refuses, told from the grammar alone.  Input is
 incomplete exactly if it begins a valid head, breaks off inside the nine bytes that the version test
 waits for, or has no method and breaks off before the parser looks at that.
 */
module HttpVerdicts {
  import opened Bytes
  import opened HttpGrammar
  import opened HttpMessages
  import opened HttpTheorems

  /** Some valid head of at most `max` headers is longer than `s` and starts with it. */
  ghost predicate Begun(s: seq<byte>, max: nat)
  {
    exists h :: BeginsHead(s, h, max)
  }

  predicate BeginsHead(s: seq<byte>, h: Head, max: nat)
  {
    ValidHead(h, max) && s < Render(h)
  }

  /** What stands before the version: a method, a path and the spaces behind them. */
  datatype Opening = Opening(lead: Option<LineEnd>, verb: seq<byte>, gap1: nat, path: seq<byte>, gap2: nat)

  function RenderOpening(o: Opening): seq<byte>
  {
    RenderLead(o.lead) + (o.verb + Spaces(o.gap1)) + (o.path + Spaces(o.gap2))
  }

  /** Fewer than nine bytes stand behind a method and a path, whatever they are. */
  ghost predicate AwaitsVersion(s: seq<byte>)
  {
    exists o :: AwaitsVersionBehind(s, o)
  }

  predicate AwaitsVersionBehind(s: seq<byte>, o: Opening)
  {
    && IsToken(o.verb) && o.gap1 > 0 && IsPath(o.path) && o.gap2 > 0
    && RenderOpening(o) <= s && |s| < |RenderOpening(o)| + 9
  }

  /** No method, and nothing behind the path but spaces: the parser has not looked yet. */
  ghost predicate LacksMethod(s: seq<byte>)
  {
    exists o :: LacksMethodAs(s, o)
  }

  predicate LacksMethodAs(s: seq<byte>, o: Opening)
  {
    && o.verb == [] && o.gap1 > 0 && (if o.path == [] then o.gap2 == 0 else IsPath(o.path)) && s == RenderOpening(o)
  }

  // ---------------------------------------------------------------- how each piece breaks off

  lemma {:induction false} TokenBreaksOff(s: seq<byte>, i: nat, stop: byte)
    requires i <= |s| && TokenEnd(s, i, stop).Partial?
    ensures forall k :: i <= k < |s| ==> IsTchar(s[k])
    decreases |s| - i
  {
    if i == |s| {
    } else {
      TokenBreaksOff(s, i + 1, stop);
    }
  }

  lemma {:induction false} PathBreaksOff(s: seq<byte>, i: nat)
    requires i <= |s| && PathEnd(s, i).Partial?
    ensures forall k :: i <= k < |s| ==> s[k] != SP && !IsControl(s[k])
    decreases |s| - i
  {
    if i == |s| {
    } else {
      PathBreaksOff(s, i + 1);
    }
  }

  lemma {:induction false} SpacesBreakOff(s: seq<byte>, i: nat)
    requires i <= |s| && SkipSpaces(s, i).Partial?
    ensures forall k :: i <= k < |s| ==> s[k] == SP
    decreases |s| - i
  {
    if i == |s| {
    } else {
      SpacesBreakOff(s, i + 1);
    }
  }

  lemma {:induction false} BlanksBreakOff(s: seq<byte>, i: nat)
    requires i <= |s| && SkipBlanks(s, i).Partial?
    ensures forall k :: i <= k < |s| ==> IsBlank(s[k])
    decreases |s| - i
  {
    if i == |s| {
    } else {
      BlanksBreakOff(s, i + 1);
    }
  }

  /** A header value breaks off in its text, or behind the CR of its line end. */
  lemma {:induction false} TextBreaksOff(s: seq<byte>, i: nat) returns (end: nat, eol: LineEnd)
    requires i <= |s| && TextEnd(s, i).Partial?
    ensures i <= end <= |s| && (forall k :: i <= k < end ==> !EndsText(s[k])) && s[end..] < RenderEol(eol)
    decreases |s| - i
  {
    if i == |s| {
      end, eol := i, Lf;
    } else if EndsText(s[i]) {
      end, eol := i, CrLf;
      assert s[i..] == [CR];
    } else {
      end, eol := TextBreaksOff(s, i + 1);
    }
  }

  lemma {:induction false} LineEndBreaksOff(s: seq<byte>, i: nat) returns (eol: LineEnd)
    requires i <= |s| && NewLine(s, i).Partial?
    ensures s[i..] < RenderEol(eol)
  {
    eol := CrLf;
    if i < |s| {
      assert s[i..] == [CR];
    }
  }

  lemma {:induction false} Extends(s: seq<byte>, i: nat, a: seq<byte>, rest: seq<byte>)
    requires At(s, 0, a) && i == |a| && i <= |s| && s[i..] < rest
    ensures s < a + rest
  {
    AtPrefix(s, a);
    assert s == a + s[i..];
  }

  // ---------------------------------------------------------------- the header section

  /** The value of a header that breaks off: its text so far, without and with the blanks at its end. */
  lemma {:induction false} ValueBreaksOff(s: seq<byte>, v: nat)
      returns (value: seq<byte>, trail: seq<byte>, eol: LineEnd)
    requires v <= |s| && TextEnd(s, v).Partial?
    ensures IsValue(value) && AllBlank(trail) && s[v..] < value + trail + RenderEol(eol)
    ensures v < |s| && !IsBlank(s[v]) ==> if value == [] then trail == [] else !IsBlank(value[0])
    ensures v < |s| && IsBlank(s[v]) ==> value + trail != [] && IsBlank((value + trail)[0])
  {
    hide IsBlank, EndsText;
    var end;
    end, eol := TextBreaksOff(s, v);
    var e := TrimEnd(s, v, end);
    TrimmedChars(s, v, end);
    value, trail := s[v..e], s[e..end];
    assert value + trail == s[v..end];
    assert s[v..] == s[v..end] + s[end..];
    if v < |s| && v == end {
      BreaksAtCr(s, v, eol);
    }
    CrIsNoBlank();
  }

  lemma {:induction false} CrIsNoBlank()
    ensures !IsBlank(CR)
  {
  }

  lemma {:induction false} BreaksAtCr(s: seq<byte>, v: nat, eol: LineEnd)
    requires v < |s| && s[v..] < RenderEol(eol)
    ensures s[v] == CR
  {
    assert s[v..][0] == s[v];
  }

  lemma {:induction false} NameBreaksOff(s: seq<byte>, i: nat) returns (f: Field)
    requires i < |s| && TokenEnd(s, i, COLON).Partial?
    ensures ValidField(f, true) && s[i..] < RenderField(f)
  {
    TokenBreaksOff(s, i, COLON);
    f := Named(s[i..], [], [], [], Lf);
    assert RenderField(f) == s[i..] + [COLON, LF];
  }

  lemma {:induction false} NameBlanksBreakOff(s: seq<byte>, i: nat, e: nat) returns (f: Field)
    requires i < e < |s| && TokenEnd(s, i, COLON).EndsAt(e) && SkipBlanks(s, e + 1).Partial?
    ensures ValidField(f, true) && s[i..] < RenderField(f)
  {
    TokenChars(s, i, COLON);
    BlanksBreakOff(s, e + 1);
    f := Named(s[i..e], s[e + 1..], [], [], Lf);
    assert RenderField(f) == s[i..] + [LF];
  }

  lemma {:induction false} NamedValueBreaksOff(s: seq<byte>, i: nat, v: nat) returns (f: Field)
    requires i < |s| && NamePart(s, i, true).EndsAt(v) && TextEnd(s, v).Partial?
    ensures ValidField(f, true) && s[i..] < RenderField(f)
  {
    hide NamePart, TextEnd, IsToken, IsValue, AllBlank, At, RenderEol;
    var name, blanks := AcceptName(s, i);
    var value, trail, eol := ValueBreaksOff(s, v);
    f := Named(name, blanks, value, trail, eol);
    AtElements(s, i, NameText(f));
    assert s[i..v] == NameText(f) && s[i..] == s[i..v] + s[v..];
    assert RenderField(f) == NameText(f) + (value + trail + RenderEol(eol));
  }

  lemma {:induction false} NamedBreaksOff(s: seq<byte>, i: nat) returns (f: Field)
    requires i < |s| && HeaderLine(s, i, true).Partial?
    ensures ValidField(f, true) && s[i..] < RenderField(f)
  {
    hide RenderField, TextEnd, ValidField;
    if TokenEnd(s, i, COLON).Partial? {
      f := NameBreaksOff(s, i);
    } else if SkipBlanks(s, TokenEnd(s, i, COLON).next + 1).Partial? {
      f := NameBlanksBreakOff(s, i, TokenEnd(s, i, COLON).next);
    } else {
      f := NamedValueBreaksOff(s, i, NamePart(s, i, true).next);
    }
  }

  lemma {:induction false} FoldedBreaksOff(s: seq<byte>, i: nat) returns (f: Field)
    requires i < |s| && IsBlank(s[i]) && HeaderLine(s, i, false).Partial?
    ensures ValidField(f, false) && s[i..] < RenderField(f)
  {
    var value, trail, eol := ValueBreaksOff(s, i);
    f := Folded(value, trail, eol);
    assert RenderField(f) == value + trail + RenderEol(eol);
  }

  lemma {:induction false} FieldBreaksOff(s: seq<byte>, i: nat, first: bool) returns (f: Field)
    requires i < |s| && HeaderLine(s, i, first).Partial?
    ensures ValidField(f, first) && s[i..] < RenderField(f)
  {
    hide TokenEnd, TextEnd;
    if first || !IsBlank(s[i]) {
      assert HeaderLine(s, i, first) == HeaderLine(s, i, true);
      f := NamedBreaksOff(s, i);
    } else {
      f := FoldedBreaksOff(s, i);
    }
  }

  lemma {:induction false} FieldsBreakOff(s: seq<byte>, i: nat, got: seq<Header>, max: nat) returns (fs: Fields)
    requires i <= |s| && |got| <= max && Headers(s, i, got, max).Partial?
    ensures ValidFields(fs, got == []) && |got| + Count(fs) <= max && s[i..] < RenderFields(fs)
    decreases |s| - i
  {
    hide HeaderLine, RenderField, ValidField, At;
    if i == |s| {
      fs := EmptyLine(Lf);
    } else if s[i] == CR || s[i] == LF {
      var e := LineEndBreaksOff(s, i);
      fs := EmptyLine(e);
    } else if HeaderLine(s, i, got == []).Partial? {
      var f := FieldBreaksOff(s, i, got == []);
      fs := More(f, EmptyLine(Lf));
      assert RenderFields(fs) == RenderField(f) + [LF];
    } else {
      var h := HeaderLine(s, i, got == []);
      var f := AcceptField(s, i, got == []);
      var tail := FieldsBreakOff(s, h.next, got + [h.value], max);
      fs := More(f, tail);
      AtElements(s, i, RenderField(f));
      assert s[i..h.next] == RenderField(f) && s[i..] == RenderField(f) + s[h.next..];
    }
  }

  // ---------------------------------------------------------------- the request line

  /** How a request line breaks off: inside a valid line, before the version, or without a method. */
  datatype Break = InLine(line: Line) | BeforeVersion(o: Opening) | NoMethod(o: Opening)

  /** The break describes `s` behind a leading line that ends at `start`. */
  ghost predicate Describes(s: seq<byte>, start: nat, lead: Option<LineEnd>, b: Break)
    requires start <= |s|
  {
    match b
    case InLine(line) => ValidLine(line) && s[start..] < RenderLine(line)
    case BeforeVersion(o) => o.lead == lead && AwaitsVersionBehind(s, o)
    case NoMethod(o) => o.lead == lead && LacksMethodAs(s, o)
  }

  lemma {:induction false} MethodBreaksOff(s: seq<byte>, i: nat) returns (l: Line)
    requires i <= |s| && TokenEnd(s, i, SP).Partial?
    ensures ValidLine(l) && s[i..] < RenderLine(l)
  {
    TokenBreaksOff(s, i, SP);
    l := Line(s[i..] + [0x47], 1, [0x2F], 1, 1, Lf);
    assert s[i..] < l.verb <= RenderLine(l);
  }

  lemma {:induction false} GapBreaksOff(s: seq<byte>, i: nat, m: nat) returns (l: Line)
    requires i < m < |s| && TokenEnd(s, i, SP).EndsAt(m) && SkipSpaces(s, m + 1).Partial?
    ensures ValidLine(l) && s[i..] < RenderLine(l)
  {
    TokenChars(s, i, SP);
    SpacesBreakOff(s, m + 1);
    l := Line(s[i..m], |s| - m, [0x2F], 1, 1, Lf);
    assert s[i..] == l.verb + Spaces(l.gap1);
    assert RenderLine(l) == s[i..] + (l.path + Spaces(1) + VersionText(1) + [LF]);
  }

  lemma {:induction false} PathInLine(s: seq<byte>, i: nat, verb: seq<byte>, gap1: nat) returns (l: Line)
    requires IsToken(verb) && gap1 > 0 && At(s, i, verb + Spaces(gap1)) && i + |verb| + gap1 < |s|
    requires PathEnd(s, i + |verb| + gap1).Partial?
    ensures ValidLine(l) && s[i..] < RenderLine(l)
  {
    var a, p := verb + Spaces(gap1), i + |verb| + gap1;
    PathBreaksOff(s, p);
    AtElements(s, i, a);
    l := Line(verb, gap1, s[p..], 1, 1, Lf);
    assert s[i..] == a + s[p..];
    assert RenderLine(l) == a + s[p..] + (Spaces(1) + VersionText(1) + [LF]);
  }

  lemma {:induction false} SecondGapInLine(s: seq<byte>, i: nat, verb: seq<byte>, gap1: nat) returns (l: Line)
    requires IsToken(verb) && gap1 > 0 && At(s, i, verb + Spaces(gap1)) && i + |verb| + gap1 < |s|
    requires var q := PathEnd(s, i + |verb| + gap1);
             q.Ok? && q.next > i + |verb| + gap1 && SkipSpaces(s, q.next + 1).Partial?
    ensures ValidLine(l) && s[i..] < RenderLine(l)
  {
    var a, p := verb + Spaces(gap1), i + |verb| + gap1;
    var q := PathEnd(s, p).next;
    PathChars(s, p);
    SpacesBreakOff(s, q + 1);
    AtElements(s, i, a);
    l := Line(verb, gap1, s[p..q], |s| - q, 1, Lf);
    assert s[i..] == a + (s[p..q] + Spaces(|s| - q));
    assert RenderLine(l) == s[i..] + (VersionText(1) + [LF]);
  }

  lemma {:induction false} LineEndInLine(s: seq<byte>, i: nat, verb: seq<byte>, gap1: nat, path: seq<byte>,
      gap2: nat) returns (l: Line)
    requires IsToken(verb) && gap1 > 0 && IsPath(path) && gap2 > 0
    requires At(s, i, verb + Spaces(gap1)) && At(s, i + |verb| + gap1, path + Spaces(gap2))
    requires var v := i + |verb| + gap1 + |path| + gap2; Version(s, v).Ok? && NewLine(s, v + 8).Partial?
    ensures ValidLine(l) && s[i..] < RenderLine(l)
  {
    var a, b, p := verb + Spaces(gap1), path + Spaces(gap2), i + |verb| + gap1;
    var v := p + |b|;
    var minor := Version(s, v).value;
    AtVersion(s, v);
    AtElements(s, i, a);
    AtElements(s, p, b);
    AtElements(s, v, VersionText(minor));
    l := Line(verb, gap1, path, gap2, minor, CrLf);
    assert s[v + 8..] == [CR];
    assert s[i..] == a + b + VersionText(minor) + [CR];
    assert RenderLine(l) == s[i..] + [LF];
  }

  /** The opening stands at the start. */
  lemma {:induction false} AtOpening(s: seq<byte>, o: Opening, start: nat)
    requires At(s, 0, RenderLead(o.lead)) && |RenderLead(o.lead)| == start
    requires At(s, start, o.verb + Spaces(o.gap1)) && At(s, start + |o.verb| + o.gap1, o.path + Spaces(o.gap2))
    ensures RenderOpening(o) <= s
  {
    var a, b := o.verb + Spaces(o.gap1), o.path + Spaces(o.gap2);
    AtParts(s, 0, RenderLead(o.lead), a);
    AtParts(s, 0, RenderLead(o.lead) + a, b);
    AtPrefix(s, RenderOpening(o));
  }

  lemma {:induction false} NoMethodAs(s: seq<byte>, start: nat, lead: Option<LineEnd>, p: nat, q: nat)
      returns (o: Opening)
    requires At(s, 0, RenderLead(lead)) && |RenderLead(lead)| == start < p <= q <= |s|
    requires (forall k :: start <= k < p ==> s[k] == SP) && (forall k :: q <= k < |s| ==> s[k] == SP)
    requires (forall k :: p <= k < q ==> s[k] != SP && !IsControl(s[k])) && (p == q ==> q == |s|)
    ensures o.lead == lead && LacksMethodAs(s, o)
  {
    o := Opening(lead, [], p - start, s[p..q], |s| - q);
    AtPrefix(s, RenderLead(lead));
    assert s[start..p] == o.verb + Spaces(o.gap1);
    assert s[p..] == o.path + Spaces(o.gap2);
    assert s == s[..start] + s[start..p] + s[p..];
  }

  /** A first byte SP, and what the parser then reads before it finds that there is no method. */
  lemma {:induction false} NoMethodBreaksOff(s: seq<byte>, start: nat, lead: Option<LineEnd>) returns (o: Opening)
    requires At(s, 0, RenderLead(lead)) && |RenderLead(lead)| == start < |s|
    requires s[start] == SP && RequestLine(s, start).Partial?
    ensures o.lead == lead && LacksMethodAs(s, o)
  {
    hide RenderLead, LacksMethodAs;
    if SkipSpaces(s, start + 1).Partial? {
      SpacesBreakOff(s, start + 1);
      o := NoMethodAs(s, start, lead, |s|, |s|);
    } else {
      SpaceChars(s, start + 1);
      var p := SkipSpaces(s, start + 1).next;
      PathNotEmpty(s, p);
      if PathEnd(s, p).Partial? {
        PathBreaksOff(s, p);
        o := NoMethodAs(s, start, lead, p, |s|);
      } else {
        PathChars(s, p);
        SpacesBreakOff(s, PathEnd(s, p).next + 1);
        o := NoMethodAs(s, start, lead, p, PathEnd(s, p).next);
      }
    }
  }

  lemma {:induction false} LineBreaksOff(s: seq<byte>, start: nat, lead: Option<LineEnd>) returns (b: Break)
    requires At(s, 0, RenderLead(lead)) && |RenderLead(lead)| == start <= |s| && RequestLine(s, start).Partial?
    ensures Describes(s, start, lead, b)
  {
    hide TokenEnd, PathEnd, SkipSpaces, IsToken, IsPath, At, RenderLine, RenderOpening, RenderLead;
    var l, o;
    if TokenEnd(s, start, SP).Partial? {
      l := MethodBreaksOff(s, start);
      b := InLine(l);
    } else if TokenEnd(s, start, SP).next == start {
      o := NoMethodBreaksOff(s, start, lead);
      b := NoMethod(o);
    } else if SkipSpaces(s, TokenEnd(s, start, SP).next + 1).Partial? {
      l := GapBreaksOff(s, start, TokenEnd(s, start, SP).next);
      b := InLine(l);
    } else {
      b := PathOnBreaksOff(s, start, lead);
    }
  }

  lemma {:induction false} PathOnBreaksOff(s: seq<byte>, start: nat, lead: Option<LineEnd>) returns (b: Break)
    requires At(s, 0, RenderLead(lead)) && |RenderLead(lead)| == start <= |s| && RequestLine(s, start).Partial?
    requires TokenEnd(s, start, SP).Ok? && TokenEnd(s, start, SP).next != start
    requires SkipSpaces(s, TokenEnd(s, start, SP).next + 1).Ok?
    ensures Describes(s, start, lead, b)
  {
    hide TokenEnd, PathEnd, SkipSpaces, IsToken, IsPath, At, RenderLine, RenderOpening, RenderLead;
    var l;
    var verb, gap1 := AcceptToken(s, start);
    var p := start + |verb| + gap1;
    PathNotEmpty(s, p);
    if PathEnd(s, p).Partial? {
      l := PathInLine(s, start, verb, gap1);
      b := InLine(l);
    } else if SkipSpaces(s, PathEnd(s, p).next + 1).Partial? {
      l := SecondGapInLine(s, start, verb, gap1);
      b := InLine(l);
    } else {
      var path, gap2 := AcceptPath(s, p);
      if Version(s, p + |path| + gap2).Partial? {
        var o := Opening(lead, verb, gap1, path, gap2);
        AtOpening(s, o, start);
        OpeningLength(o);
        b := BeforeVersion(o);
      } else {
        l := LineEndInLine(s, start, verb, gap1, path, gap2);
        b := InLine(l);
      }
    }
  }

  lemma {:induction false} OpeningLength(o: Opening)
    ensures |RenderOpening(o)| == |RenderLead(o.lead)| + |o.verb| + o.gap1 + |o.path| + o.gap2
  {
  }

  lemma {:induction false} PathNotEmpty(s: seq<byte>, p: nat)
    requires p < |s| && s[p] != SP
    ensures PathEnd(s, p).Ok? ==> PathEnd(s, p).next > p
  {
  }

  // ---------------------------------------------------------------- the verdicts

  /** A parse that asks for more has read one of the three. */
  lemma {:induction false} PartialIsBegun(s: seq<byte>, max: nat)
    requires RequestHead(s, max).Partial?
    ensures Begun(s, max) || AwaitsVersion(s) || LacksMethod(s)
  {
    hide RequestLine, Headers, BeginsHead, AwaitsVersionBehind, LacksMethodAs, RenderLead, At;
    if LeadingLine(s).Partial? {
      var e := LineEndBreaksOff(s, 0);
      BeginsAtLead(s, e, max);
    } else {
      var lead := AcceptLead(s);
      var start := |RenderLead(lead)|;
      if RequestLine(s, start).Partial? {
        var b := LineBreaksOff(s, start, lead);
        if b.InLine? {
          BeginsInLine(s, lead, b.line, max);
        }
      } else {
        var l := AcceptLine(s, start);
        var fs := FieldsBreakOff(s, start + |RenderLine(l)|, [], max);
        BeginsInFields(s, lead, l, fs, max);
      }
    }
  }

  lemma {:induction false} BeginsAtLead(s: seq<byte>, e: LineEnd, max: nat)
    requires s < RenderEol(e)
    ensures Begun(s, max)
  {
    var h := Head(Some(e), Line([0x47], 1, [0x2F], 1, 1, Lf), EmptyLine(Lf));
    assert RenderEol(e) <= RenderEol(e) + RenderLine(h.line) <= Render(h);
    assert BeginsHead(s, h, max);
  }

  lemma {:induction false} BeginsInLine(s: seq<byte>, lead: Option<LineEnd>, l: Line, max: nat)
    requires ValidLine(l) && At(s, 0, RenderLead(lead)) && |RenderLead(lead)| <= |s|
    requires s[|RenderLead(lead)|..] < RenderLine(l)
    ensures Begun(s, max)
  {
    hide RenderLine, ValidLine, RenderLead, At;
    var h := Head(lead, l, EmptyLine(Lf));
    Extends(s, |RenderLead(lead)|, RenderLead(lead), RenderLine(l));
    assert RenderLead(lead) + RenderLine(l) <= Render(h);
    assert BeginsHead(s, h, max);
  }

  lemma {:induction false} BeginsInFields(s: seq<byte>, lead: Option<LineEnd>, l: Line, fs: Fields, max: nat)
    requires ValidLine(l) && At(s, 0, RenderLead(lead)) && At(s, |RenderLead(lead)|, RenderLine(l))
    requires var at := |RenderLead(lead)| + |RenderLine(l)|; at <= |s| && s[at..] < RenderFields(fs)
    requires ValidFields(fs, true) && Count(fs) <= max
    ensures Begun(s, max)
  {
    hide RenderLine, ValidLine, RenderLead, RenderFields, ValidFields, Count, At;
    AtParts(s, 0, RenderLead(lead), RenderLine(l));
    Extends(s, |RenderLead(lead) + RenderLine(l)|, RenderLead(lead) + RenderLine(l), RenderFields(fs));
    assert BeginsHead(s, Head(lead, l, fs), max);
  }

  lemma {:induction false} BegunIsPartial(s: seq<byte>, h: Head, max: nat)
    requires BeginsHead(s, h, max)
    ensures RequestHead(s, max).Partial?
  {
    hide RequestHead, Render, ValidLine, ValidFields;
    RenderedHeadParses(Render(h), h, max);
    assert s == Render(h)[..|s|];
    StrictPrefixesAreIncomplete(Render(h), max, |s|);
  }

  /** The opening behind a leading line, up to the path. */
  lemma {:induction false} OpeningAt(s: seq<byte>, o: Opening)
    requires RenderOpening(o) <= s && o.gap1 > 0 && (o.verb != [] ==> IsToken(o.verb))
    ensures LeadingLine(s).EndsAt(|RenderLead(o.lead)|)
    ensures At(s, |RenderLead(o.lead)|, o.verb + Spaces(o.gap1))
    ensures At(s, |RenderLead(o.lead)| + |o.verb| + o.gap1, o.path + Spaces(o.gap2))
  {
    var lead, a, b := RenderLead(o.lead), o.verb + Spaces(o.gap1), o.path + Spaces(o.gap2);
    AtPrefix(s, lead + a + b);
    AtParts(s, 0, lead + a, b);
    AtParts(s, 0, lead, a);
    if o.lead.Some? {
      EolRun(s, 0, o.lead.value);
    } else {
      AtElements(s, 0, a);
      assert s[0] == a[0];
    }
  }

  /** Spaces to the end, or up to another byte. */
  lemma {:induction false} SpacesOn(s: seq<byte>, i: nat, j: nat)
    requires i <= j <= |s| && forall k :: i <= k < j ==> s[k] == SP
    ensures SkipSpaces(s, i) == SkipSpaces(s, j)
    decreases j - i
  {
    if i == j {
    } else {
      SpacesOn(s, i + 1, j);
    }
  }

  lemma {:induction false} AwaitsVersionIsPartial(s: seq<byte>, o: Opening, max: nat)
    requires AwaitsVersionBehind(s, o)
    ensures RequestHead(s, max).Partial?
  {
    hide TokenEnd, PathEnd, SkipSpaces, At;
    var start := |RenderLead(o.lead)|;
    OpeningAt(s, o);
    OpeningLength(o);
    var m, p := start + |o.verb|, start + |o.verb| + o.gap1;
    AtElements(s, start, o.verb + Spaces(o.gap1));
    AtElements(s, p, o.path + Spaces(o.gap2));
    assert s[p] == o.path[0];
    TokenRun(s, start, m, SP);
    SpacesRun(s, m + 1, p);
    PathRun(s, p, p + |o.path|);
    SpacesOn(s, p + |o.path| + 1, p + |o.path| + o.gap2);
  }

  lemma {:induction false} LacksMethodIsPartial(s: seq<byte>, o: Opening, max: nat)
    requires LacksMethodAs(s, o)
    ensures RequestHead(s, max).Partial?
  {
    hide At;
    var start := |RenderLead(o.lead)|;
    OpeningAt(s, o);
    OpeningLength(o);
    var p := start + o.gap1;
    AtElements(s, start, o.verb + Spaces(o.gap1));
    AtElements(s, p, o.path + Spaces(o.gap2));
    SpacesOn(s, start + 1, p);
    if o.path != [] {
      assert s[p] == o.path[0];
      PathStops(s, p, p + |o.path|);
      if o.gap2 > 0 {
        SpacesOn(s, p + |o.path| + 1, |s|);
      }
    }
  }

  /** Path bytes up to a space or the end. */
  lemma {:induction false} PathStops(s: seq<byte>, i: nat, j: nat)
    requires i <= j <= |s| && (j < |s| ==> s[j] == SP) && forall k :: i <= k < j ==> s[k] != SP && !IsControl(s[k])
    ensures if j == |s| then PathEnd(s, i).Partial? else PathEnd(s, i).EndsAt(j)
    decreases j - i
  {
    if i == j {
    } else {
      PathStops(s, i + 1, j);
    }
  }

  /** The three outcomes: a head is there, is not complete yet, or cannot be there. */
  lemma {:induction false} Verdicts(s: seq<byte>, max: nat)
    ensures RequestHead(s, max).Ok? <==> exists h :: StartsWith(s, h, max)
    ensures RequestHead(s, max).Partial? <==> Begun(s, max) || AwaitsVersion(s) || LacksMethod(s)
    ensures RequestHead(s, max).Fail? <==>
              !(exists h :: StartsWith(s, h, max)) && !Begun(s, max) && !AwaitsVersion(s) && !LacksMethod(s)
  {
    hide RequestHead, BeginsHead, AwaitsVersionBehind, LacksMethodAs, StartsWith;
    ParsesExactlyHeads(s, max);
    if Begun(s, max) {
      var h :| BeginsHead(s, h, max);
      BegunIsPartial(s, h, max);
    }
    if AwaitsVersion(s) {
      var o :| AwaitsVersionBehind(s, o);
      AwaitsVersionIsPartial(s, o, max);
    }
    if LacksMethod(s) {
      var o :| LacksMethodAs(s, o);
      LacksMethodIsPartial(s, o, max);
    }
    if RequestHead(s, max).Partial? {
      PartialIsBegun(s, max);
    }
  }

  // ---------------------------------------------------------------- too many headers

  /** The header lines without the empty line behind them. */
  function FieldLines(fs: Fields): seq<byte>
  {
    if fs.EmptyLine? then [] else RenderField(fs.head) + FieldLines(fs.tail)
  }

  lemma {:induction false} LinesRefused(s: seq<byte>, i: nat, fs: Fields, got: seq<Header>, max: nat)
    requires ValidFields(fs, got == []) && |got| <= max < |got| + Count(fs) && At(s, i, FieldLines(fs))
    ensures Headers(s, i, got, max).Fail?
    decreases fs
  {
    hide HeaderLine, RenderField, ValidField, At;
    AtParts(s, i, RenderField(fs.head), FieldLines(fs.tail));
    if |got| == max {
      FieldStarts(s, i, fs.head, got == []);
    } else {
      HeadersStep(s, i, got, max, fs.head);
      LinesRefused(s, i + |RenderField(fs.head)|, fs.tail, got + [FieldParts(fs.head, i)], max);
    }
  }

  lemma {:induction false} FieldStarts(s: seq<byte>, i: nat, f: Field, first: bool)
    requires ValidField(f, first) && At(s, i, RenderField(f))
    ensures i < |s| && s[i] != CR && s[i] != LF
  {
    AtRenderField(s, i, f);
    FieldRun(s, i, f, first);
  }

  /** A request line with more than `max` header lines behind it is refused, whatever follows. */
  lemma {:induction false} TooManyHeaders(s: seq<byte>, lead: Option<LineEnd>, l: Line, fs: Fields, max: nat)
    requires ValidLine(l) && ValidFields(fs, true) && Count(fs) > max
    requires RenderLead(lead) + RenderLine(l) + FieldLines(fs) <= s
    ensures RequestHead(s, max).Fail?
  {
    hide RequestLine, Headers, LeadingLine, RenderLine, RenderLead, FieldLines, ValidLine, ValidFields, Count, At;
    var a, b := RenderLead(lead), RenderLine(l);
    AtPrefix(s, a + b + FieldLines(fs));
    AtParts(s, 0, a + b, FieldLines(fs));
    AtParts(s, 0, a, b);
    LeadRun(s, Head(lead, l, EmptyLine(Lf)));
    LineRun(s, |a|, l);
    LinesRefused(s, |a| + |b|, fs, [], max);
  }
}
