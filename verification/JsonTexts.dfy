/**
 The JSON texts that the parser accepts, as a grammar of its own: values with white space, which is
 any bytes up to SP, around every bracket, comma, colon, key and value.  Every such text parses to
 what it means and stops at its end, and nothing else parses.
 */
module JsonTexts {
  import opened Bytes
  import opened JsonString
  import opened JsonTree
  import opened JsonGrammar
  import opened JsonRoundTrip
  import opened JsonNumbers

  // ---------------------------------------------------------------- the grammar

  datatype Text =
    | Word(word: Json)
    | Numeral(decimal: Decimal)
    | Quoted(literal: seq<byte>)
    | Bracketed(gap: seq<byte>, elements: seq<Element>)
    | Braced(gap: seq<byte>, entries: seq<Entry>)

  datatype Element = Element(before: seq<byte>, value: Text, behind: seq<byte>)

  /** A key and a value with the white space before the key, around the colon and behind the value. */
  datatype Entry =
    Entry(before: seq<byte>, key: seq<byte>, gap1: seq<byte>, gap2: seq<byte>, value: Text, behind: seq<byte>)

  predicate Blank(w: seq<byte>)
  {
    forall k :: 0 <= k < |w| ==> w[k] <= 32
  }

  /** What stands between the quotes, and the closing quote. */
  function Closed(literal: seq<byte>): seq<byte> { literal + [0x22] }

  /** The closing quote is not escaped and is the first such, and every escape is one. */
  predicate ValidLiteral(literal: seq<byte>)
  {
    && LiteralEnd(Closed(literal), 0) == Some(|literal|)
    && Unescape(Closed(literal), 0, |literal|, []).Some?
  }

  function LiteralText(literal: seq<byte>): seq<byte>
    requires ValidLiteral(literal)
  {
    CString(Unescape(Closed(literal), 0, |literal|, []).value)
  }

  predicate ValidText(x: Text)
    decreases x
  {
    match x
    case Word(w) => w.Null? || w.False? || w.True?
    case Numeral(d) => ValidDecimal(d)
    case Quoted(literal) => ValidLiteral(literal)
    case Bracketed(gap, elements) => Blank(gap) && forall k :: 0 <= k < |elements| ==> ValidElement(elements[k])
    case Braced(gap, entries) => Blank(gap) && forall k :: 0 <= k < |entries| ==> ValidEntry(entries[k])
  }

  predicate ValidElement(e: Element)
    decreases e
  {
    Blank(e.before) && ValidText(e.value) && Blank(e.behind)
  }

  predicate ValidEntry(e: Entry)
    decreases e
  {
    Blank(e.before) && ValidLiteral(e.key) && Blank(e.gap1) && Blank(e.gap2) && ValidText(e.value) && Blank(e.behind)
  }

  predicate ValidElements(es: seq<Element>) { forall k :: 0 <= k < |es| ==> ValidElement(es[k]) }

  predicate ValidEntries(es: seq<Entry>) { forall k :: 0 <= k < |es| ==> ValidEntry(es[k]) }

  function WordText(w: Json): seq<byte>
  {
    if w.False? then [0x66, 0x61, 0x6C, 0x73, 0x65]
    else if w.True? then [0x74, 0x72, 0x75, 0x65]
    else [0x6E, 0x75, 0x6C, 0x6C]
  }

  function Render(x: Text): seq<byte>
    decreases x, 0
  {
    match x
    case Word(w) => WordText(w)
    case Numeral(d) => RenderDecimal(d)
    case Quoted(literal) => [0x22] + Closed(literal)
    case Bracketed(gap, elements) => [0x5B] + (if elements == [] then gap + [0x5D] else RenderElements(elements))
    case Braced(gap, entries) => [0x7B] + (if entries == [] then gap + [0x7D] else RenderEntries(entries))
  }

  /** The elements, the commas between them and the bracket behind the last. */
  function RenderElements(es: seq<Element>): seq<byte>
    requires es != []
    decreases es, 1
  {
    RenderElement(es[0]) + (if |es| == 1 then [0x5D] else [0x2C] + RenderElements(es[1..]))
  }

  function RenderElement(e: Element): seq<byte>
    decreases e, 1
  {
    e.before + Render(e.value) + e.behind
  }

  function RenderEntries(es: seq<Entry>): seq<byte>
    requires es != []
    decreases es, 1
  {
    RenderEntry(es[0]) + (if |es| == 1 then [0x7D] else [0x2C] + RenderEntries(es[1..]))
  }

  function RenderKey(e: Entry): seq<byte>
  {
    e.before + [0x22] + Closed(e.key) + e.gap1 + [0x3A] + e.gap2
  }

  function RenderEntry(e: Entry): seq<byte>
    decreases e, 1
  {
    RenderKey(e) + Render(e.value) + e.behind
  }

  /** The value that a text means. */
  function Meaning(x: Text): Json
    requires ValidText(x)
    decreases x, 0
  {
    match x
    case Word(w) => w
    case Numeral(d) => Number(DecimalValue(d))
    case Quoted(literal) => String(LiteralText(literal))
    case Bracketed(_, elements) => Array(Meanings(elements))
    case Braced(_, entries) => Object(MemberMeanings(entries))
  }

  function Meanings(es: seq<Element>): seq<Json>
    requires ValidElements(es)
    decreases es, 1
  {
    if es == [] then []
    else
      assert ValidElement(es[0]);
      [Meaning(es[0].value)] + Meanings(es[1..])
  }

  function MemberMeanings(es: seq<Entry>): seq<Member>
    requires ValidEntries(es)
    decreases es, 1
  {
    if es == [] then []
    else
      assert ValidEntry(es[0]);
      [Member(LiteralText(es[0].key), Meaning(es[0].value))] + MemberMeanings(es[1..])
  }

  /** How deep brackets and braces nest. */
  function Depth(x: Text): nat
    decreases x, 0
  {
    match x
    case Bracketed(_, elements) => 1 + ElementsDepth(elements)
    case Braced(_, entries) => 1 + EntriesDepth(entries)
    case _ => 0
  }

  function ElementsDepth(es: seq<Element>): nat
    decreases es, 1
  {
    if es == [] then 0 else Max(Depth(es[0].value), ElementsDepth(es[1..]))
  }

  function EntriesDepth(es: seq<Entry>): nat
    decreases es, 1
  {
    if es == [] then 0 else Max(Depth(es[0].value), EntriesDepth(es[1..]))
  }

  // ---------------------------------------------------------------- literals do not depend on where they stand

  lemma {:induction false} LiteralEndMoves(s: seq<byte>, i: nat, w: seq<byte>, k: nat)
    requires At(s, i, w) && k <= |w|
    ensures LiteralEnd(w, k).Some? ==> LiteralEnd(s, i + k) == Some(i + LiteralEnd(w, k).value)
    decreases |w| - k
  {
    AtElements(s, i, w);
    if k == |w| || w[k] == QUOTE {
    } else if w[k] != BACKSLASH {
      LiteralEndMoves(s, i, w, k + 1);
    } else if k + 1 < |w| {
      LiteralEndMoves(s, i, w, k + 2);
    }
  }

  lemma {:induction false} LiteralEndCut(s: seq<byte>, i: nat, w: seq<byte>, k: nat, end: nat)
    requires At(s, i, w) && k <= end < |w| && LiteralEnd(s, i + k) == Some(i + end)
    ensures LiteralEnd(w, k) == Some(end)
    decreases |w| - k
  {
    AtElements(s, i, w);
    if w[k] == QUOTE {
    } else if w[k] != BACKSLASH {
      LiteralEndCut(s, i, w, k + 1, end);
    } else {
      LiteralEndCut(s, i, w, k + 2, end);
    }
  }

  lemma {:induction false} EscapeMoves(s: seq<byte>, i: nat, w: seq<byte>, k: nat, end: nat)
    requires At(s, i, w) && k < end < |w|
    ensures EscapeAt(s, i + k, i + end) == EscapeAt(w, k, end)
  {
    AtElements(s, i, w);
    if end - k >= 6 {
      Hex4Moves(s, i, w, k + 2);
      if end - (k + 6) >= 6 {
        Hex4Moves(s, i, w, k + 8);
      }
    }
  }

  lemma {:induction false} Hex4Moves(s: seq<byte>, i: nat, w: seq<byte>, k: nat)
    requires At(s, i, w) && k + 4 <= |w|
    ensures Hex4(s, i + k) == Hex4(w, k)
  {
    AtElements(s, i, w);
  }

  lemma {:induction false} UnescapeMoves(s: seq<byte>, i: nat, w: seq<byte>, k: nat, end: nat, out: seq<byte>)
    requires At(s, i, w) && k <= end + 1 && end < |w|
    ensures Unescape(s, i + k, i + end, out) == Unescape(w, k, end, out)
    decreases end + 1 - k
  {
    if k >= end {
    } else {
      AtElements(s, i, w);
      hide EscapeAt;
      if w[k] != BACKSLASH {
        UnescapeMoves(s, i, w, k + 1, end, out + [w[k]]);
      } else {
        EscapeMoves(s, i, w, k, end);
        match EscapeAt(w, k, end)
        case Escape(bytes, len) => UnescapeMoves(s, i, w, k + len, end, out + bytes);
        case BadEscape =>
      }
    }
  }

  /** A quoted literal parses to its text. */
  lemma {:induction false} QuotedRun(s: seq<byte>, i: nat, literal: seq<byte>)
    requires Terminated(s) && ValidLiteral(literal) && At(s, i, [0x22] + Closed(literal))
    ensures i < |s| && s[i] == QUOTE && ParseString(s, i).ParsedString?
    ensures ParseString(s, i).text == LiteralText(literal) && ParseString(s, i).next == i + |literal| + 2
  {
    hide LiteralEnd, Unescape;
    var w := Closed(literal);
    AtParts(s, i, [0x22], w);
    AtElements(s, i, [0x22]);
    LiteralEndMoves(s, i + 1, w, 0);
    UnescapeMoves(s, i + 1, w, 0, |literal|, []);
  }

  lemma {:induction false} AcceptQuoted(s: seq<byte>, i: nat) returns (literal: seq<byte>)
    requires i < |s| && Terminated(s) && ParseString(s, i).ParsedString?
    ensures ValidLiteral(literal) && At(s, i, [0x22] + Closed(literal))
    ensures ParseString(s, i).text == LiteralText(literal) && ParseString(s, i).next == i + |literal| + 2
  {
    hide Unescape;
    var end := LiteralEnd(s, i + 1).value;
    literal := s[i + 1..end];
    assert s[i..end + 1] == [0x22] + Closed(literal);
    AtSlice(s, i, end + 1 - i);
    AtParts(s, i, [0x22], Closed(literal));
    hide LiteralEnd;
    LiteralEndCut(s, i + 1, Closed(literal), 0, |literal|);
    UnescapeMoves(s, i + 1, Closed(literal), 0, |literal|, []);
  }

  // ---------------------------------------------------------------- every such text parses

  /** White space at `i` and something else behind it. */
  lemma {:induction false} BlankRun(s: seq<byte>, i: nat, w: seq<byte>)
    requires Blank(w) && At(s, i, w) && i + |w| < |s| && s[i + |w|] > SP
    ensures SkipWs(s, i) == i + |w|
  {
    AtElements(s, i, w);
    WsRun(s, i, i + |w|);
  }

  /** A text starts with a byte above SP that closes nothing. */
  lemma {:induction false} FirstByte(x: Text)
    requires ValidText(x)
    ensures Render(x) != [] && Render(x)[0] > SP && Render(x)[0] != 0x5D && Render(x)[0] < 0x80
  {
    if x.Numeral? {
      DecimalNotEmpty(x.decimal);
      var d := x.decimal;
      assert Render(x) == SignText(d) + d.whole + FractionText(d) + ExponentText(d);
    }
  }

  lemma {:induction false} TextAt(s: seq<byte>, i: nat, x: Text)
    requires ValidText(x) && At(s, i, Render(x))
    ensures i < |s| && s[i] > SP && s[i] != 0x5D
  {
    FirstByte(x);
    AtElements(s, i, Render(x));
    assert s[i] == Render(x)[0];
  }

  lemma {:induction false} WordParses(s: seq<byte>, i: nat, w: Json, depth: nat)
    requires Terminated(s) && (w.Null? || w.False? || w.True?) && At(s, i, WordText(w)) && i + |WordText(w)| < |s|
    ensures var r := ParseValue(s, i, depth); r.Parsed? && r.value == w && r.next == i + |WordText(w)|
  {
    var t := WordText(w);
    AtElements(s, i, t);
    assert s[i] == t[0] && s[i + 1] == t[1] && s[i + 2] == t[2] && s[i + 3] == t[3];
    if w.False? {
      assert s[i + 4] == t[4];
    }
  }

  lemma {:induction false} LeafParses(s: seq<byte>, i: nat, x: Text, depth: nat)
    requires Terminated(s) && ValidText(x) && !x.Bracketed? && !x.Braced? && At(s, i, Render(x))
    requires i + |Render(x)| < |s| && (x.Numeral? ==> !IsNumberChar(s[i + |Render(x)|]))
    ensures var r := ParseValue(s, i, depth); r.Parsed? && r.value == Meaning(x) && r.next == i + |Render(x)|
  {
    hide ParseNumber, ParseString, ValidDecimal, ValidLiteral, DecimalValue, RenderDecimal;
    match x
    case Word(w) => WordParses(s, i, w, depth);
    case Numeral(d) => DecimalParses(s, i, d);
    case Quoted(literal) => QuotedRun(s, i, literal);
  }

  /** An element, the byte behind it, and what the parser makes of them. */
  lemma {:induction false} ElementPlaces(s: seq<byte>, i: nat, e: Element, last: byte)
    requires Terminated(s) && ValidElement(e) && At(s, i, RenderElement(e)) && i + |RenderElement(e)| < |s|
    requires s[i + |RenderElement(e)|] == last && last > SP && !IsNumberChar(last)
    ensures var v := i + |e.before|; var n := v + |Render(e.value)|;
            && At(s, v, Render(e.value)) && SkipWs(s, i) == v && n < |s| && !IsNumberChar(s[n])
            && SkipWs(s, n) == i + |RenderElement(e)|
  {
    hide Render, ValidText, SkipWs, At;
    var v := i + |e.before|;
    var n := v + |Render(e.value)|;
    AtParts(s, i, e.before + Render(e.value), e.behind);
    AtParts(s, i, e.before, Render(e.value));
    TextAt(s, v, e.value);
    BlankRun(s, i, e.before);
    BlankRun(s, n, e.behind);
    AtElements(s, n, e.behind);
  }

  /** The first element, and the comma or bracket behind it. */
  lemma {:induction false} ElementsPlaces(s: seq<byte>, i: nat, es: seq<Element>)
    requires es != [] && At(s, i, RenderElements(es))
    ensures var e := i + |RenderElement(es[0])|;
            && At(s, i, RenderElement(es[0])) && e < |s| && s[e] == (if |es| == 1 then 0x5D else 0x2C)
            && (|es| == 1 ==> i + |RenderElements(es)| == e + 1)
            && (|es| > 1 ==> At(s, e + 1, RenderElements(es[1..]))
                             && i + |RenderElements(es)| == e + 1 + |RenderElements(es[1..])|)
  {
    hide RenderElement;
    var first, rest := RenderElement(es[0]), if |es| == 1 then [0x5D] else [0x2C] + RenderElements(es[1..]);
    AtParts(s, i, first, rest);
    AtElements(s, i + |first|, rest);
    assert s[i + |first|] == rest[0];
    if |es| > 1 {
      AtParts(s, i + |first|, [0x2C], RenderElements(es[1..]));
    }
  }

  lemma {:induction false} ElementStep(s: seq<byte>, i: nat, v: nat, n: nat, e: nat, depth: nat, got: seq<Json>,
      t: Json, d: nat)
    requires Terminated(s) && i < |s| && SkipWs(s, i) == v && v < |s| && n < |s| && SkipWs(s, n) == e
    requires Outcome(ParseValue(s, v, depth), depth, d, t, n)
    ensures ParseItems(s, i, depth, got)
         == if depth + d <= NESTING_LIMIT then AfterItem(s, e, depth, got + [t]) else Bad
  {
    hide ParseValue;
  }

  /** The first of these elements: its outcome decides the array, or hands over to what follows. */
  lemma {:induction false} ElementParses(s: seq<byte>, i: nat, e: Element, last: byte, depth: nat, got: seq<Json>)
    requires Terminated(s) && ValidElement(e) && ValidText(e.value)
    requires At(s, i, RenderElement(e)) && i + |RenderElement(e)| < |s|
    requires s[i + |RenderElement(e)|] == last && last > SP && !IsNumberChar(last)
    requires var v := i + |e.before|; var n := v + |Render(e.value)|;
             v < |s| && Outcome(ParseValue(s, v, depth), depth, Depth(e.value), Meaning(e.value), n)
    ensures i < |s|
    ensures ParseItems(s, i, depth, got)
         == if depth + Depth(e.value) <= NESTING_LIMIT
            then AfterItem(s, i + |RenderElement(e)|, depth, got + [Meaning(e.value)]) else Bad
  {
    hide ParseValue, ParseItems, AfterItem, Render, RenderElement, Meaning, Depth, SkipWs, At, ValidElement, ValidText;
    ElementPlaces(s, i, e, last);
    var v := i + |e.before|;
    ElementStep(s, i, v, v + |Render(e.value)|, i + |RenderElement(e)|, depth, got, Meaning(e.value), Depth(e.value));
  }

  lemma {:induction false} ElementsParse(s: seq<byte>, i: nat, es: seq<Element>, depth: nat, got: seq<Json>)
    requires Terminated(s) && es != [] && ValidElements(es) && depth <= NESTING_LIMIT
    requires At(s, i, RenderElements(es)) && i + |RenderElements(es)| < |s|
    ensures Outcome(ParseItems(s, i, depth, got), depth, ElementsDepth(es), Array(got + Meanings(es)),
            i + |RenderElements(es)|)
    decreases es, 2
  {
    hide ParseValue, ParseItems, Render, RenderElement, RenderElements, Meaning, Meanings, Depth, ElementsDepth, SkipWs,
      At, ValidElement, ValidText;
    var x := es[0];
    assert ValidElement(x);
    ElementValue(x);
    ElementsPlaces(s, i, es);
    var e := i + |RenderElement(x)|;
    ElementPlaces(s, i, x, s[e]);
    TextParses(s, i + |x.before|, x.value, depth);
    ElementParses(s, i, x, s[e], depth, got);
    MeaningsStep(es, got);
    if |es| > 1 && depth + Depth(x.value) <= NESTING_LIMIT {
      ElementsParse(s, e + 1, es[1..], depth, got + [Meaning(x.value)]);
    }
  }

  lemma {:induction false} ElementValue(e: Element)
    requires ValidElement(e)
    ensures ValidText(e.value)
  {
  }

  lemma {:induction false} MeaningsStep(es: seq<Element>, got: seq<Json>)
    requires es != [] && ValidElements(es) && ValidText(es[0].value)
    ensures got + Meanings(es) == got + [Meaning(es[0].value)] + Meanings(es[1..])
    ensures |es| == 1 ==> Meanings(es[1..]) == [] && ElementsDepth(es[1..]) == 0
    ensures ElementsDepth(es) == Max(Depth(es[0].value), ElementsDepth(es[1..]))
  {
    hide Meaning, Depth, ValidText, Max;
    var m := Meaning(es[0].value);
    assert Meanings(es) == [m] + Meanings(es[1..]);
    assert got + ([m] + Meanings(es[1..])) == got + [m] + Meanings(es[1..]);
  }

  lemma {:induction false} BracketedParses(s: seq<byte>, i: nat, x: Text, depth: nat)
    requires Terminated(s) && ValidText(x) && x.Bracketed? && depth <= NESTING_LIMIT
    requires At(s, i, Render(x)) && i + |Render(x)| < |s|
    ensures Outcome(ParseValue(s, i, depth), depth, Depth(x), Meaning(x), i + |Render(x)|)
    decreases x, 0
  {
    hide ParseItems, RenderElements, SkipWs, At;
    var es := x.elements;
    var rest := if es == [] then x.gap + [0x5D] else RenderElements(es);
    AtParts(s, i, [0x5B], rest);
    AtElements(s, i, [0x5B]);
    if es == [] {
      AtParts(s, i + 1, x.gap, [0x5D]);
      AtElements(s, i + 1 + |x.gap|, [0x5D]);
      BlankRun(s, i + 1, x.gap);
      hide ValidText, Blank;
      OpensArray(s, i, i + 1 + |x.gap|, depth);
    } else {
      FirstElement(s, i + 1, es);
      OpensArray(s, i, SkipWs(s, i + 1), depth);
      if depth < NESTING_LIMIT {
        ElementsParse(s, i + 1, es, depth + 1, []);
        assert [] + Meanings(es) == Meanings(es);
      }
    }
  }

  /** White space is skipped as well in one go as in two. */
  lemma {:induction false} SkipTwice(s: seq<byte>, i: nat)
    requires Terminated(s) && i < |s|
    ensures SkipWs(s, SkipWs(s, i)) == SkipWs(s, i)
  {
    var e := WsEnd(s, i);
    if e == |s| {
      assert WsEnd(s, |s| - 1) == WsEnd(s, |s|) == |s|;
    } else {
      assert WsEnd(s, e) == e;
    }
  }

  lemma {:induction false} ItemsAfterSkip(s: seq<byte>, i: nat, depth: nat, got: seq<Json>)
    requires Terminated(s) && i < |s|
    ensures ParseItems(s, SkipWs(s, i), depth, got) == ParseItems(s, i, depth, got)
  {
    hide SkipWs, ParseValue, AfterItem;
    SkipTwice(s, i);
  }

  lemma {:induction false} MembersAfterSkip(s: seq<byte>, i: nat, depth: nat, got: seq<Member>)
    requires Terminated(s) && i < |s|
    ensures ParseMembers(s, SkipWs(s, i), depth, got) == ParseMembers(s, i, depth, got)
  {
    hide SkipWs, ParseString, AfterKey;
    SkipTwice(s, i);
  }

  lemma {:induction false} OpensArray(s: seq<byte>, i: nat, j: nat, depth: nat)
    requires Terminated(s) && i + 1 < |s| && s[i] == 0x5B && SkipWs(s, i + 1) == j < |s|
    ensures ParseValue(s, i, depth)
         == if depth >= 1000 then Bad
            else if s[j] == 0x5D then Parsed(Array([]), j + 1)
            else ParseItems(s, i + 1, depth + 1, [])
  {
    hide ParseItems, SkipWs;
    ItemsAfterSkip(s, i + 1, depth + 1, []);
  }

  /** What follows an opening bracket is no closing one. */
  lemma {:induction false} FirstElement(s: seq<byte>, i: nat, es: seq<Element>)
    requires Terminated(s) && es != [] && ValidElements(es) && At(s, i, RenderElements(es))
    ensures i < |s| && s[SkipWs(s, i)] != 0x5D
  {
    hide RenderElement, RenderElements, ValidElement, SkipWs, At;
    assert ValidElement(es[0]);
    ElementsPlaces(s, i, es);
    ElementPlaces(s, i, es[0], s[i + |RenderElement(es[0])|]);
    ElementValue(es[0]);
    TextAt(s, i + |es[0].before|, es[0].value);
  }

  lemma {:induction false} OpensObject(s: seq<byte>, i: nat, j: nat, depth: nat)
    requires Terminated(s) && i + 1 < |s| && s[i] == 0x7B && SkipWs(s, i + 1) == j < |s|
    ensures ParseValue(s, i, depth)
         == if depth >= 1000 then Bad
            else if s[j] == 0x7D then Parsed(Object([]), j + 1)
            else ParseMembers(s, i + 1, depth + 1, [])
  {
    hide ParseMembers, SkipWs;
    MembersAfterSkip(s, i + 1, depth + 1, []);
  }

  /** The key of an entry, the colon, and where the value starts. */
  lemma {:induction false} KeyPlaces(s: seq<byte>, i: nat, e: Entry)
    requires Terminated(s) && ValidEntry(e) && At(s, i, RenderKey(e))
    requires i + |RenderKey(e)| < |s| && s[i + |RenderKey(e)|] > SP
    ensures var q := i + |e.before|; var c := q + |e.key| + 2 + |e.gap1|;
            && SkipWs(s, i) == q < |s| && s[q] == QUOTE && ParseString(s, q).ParsedString?
            && ParseString(s, q).text == LiteralText(e.key) && SkipWs(s, q + |e.key| + 2) == c < |s|
            && ParseString(s, q).next == q + |e.key| + 2
            && s[c] == COLON && c + 1 < |s| && SkipWs(s, c + 1) == i + |RenderKey(e)|
  {
    hide ParseString, SkipWs, ValidLiteral, LiteralText, Blank, ValidText, At;
    var key := [0x22] + Closed(e.key);
    var q := i + |e.before|;
    var c := q + |e.key| + 2 + |e.gap1|;
    assert RenderKey(e) == e.before + key + e.gap1 + [0x3A] + e.gap2;
    AtParts(s, i, e.before + key + e.gap1 + [0x3A], e.gap2);
    AtParts(s, i, e.before + key + e.gap1, [0x3A]);
    AtParts(s, i, e.before + key, e.gap1);
    AtParts(s, i, e.before, key);
    AtElements(s, c, [0x3A]);
    QuotedRun(s, q, e.key);
    BlankRun(s, i, e.before);
    BlankRun(s, q + |key|, e.gap1);
    BlankRun(s, c + 1, e.gap2);
  }

  /** The value of an entry and the byte behind the entry. */
  lemma {:induction false} EntryPlaces(s: seq<byte>, i: nat, e: Entry, last: byte)
    requires Terminated(s) && ValidEntry(e) && At(s, i, RenderEntry(e)) && i + |RenderEntry(e)| < |s|
    requires s[i + |RenderEntry(e)|] == last && last > SP && !IsNumberChar(last)
    ensures var v := i + |RenderKey(e)|; var n := v + |Render(e.value)|;
            && At(s, i, RenderKey(e)) && At(s, v, Render(e.value)) && v < |s| && s[v] > SP
            && n < |s| && !IsNumberChar(s[n]) && SkipWs(s, n) == i + |RenderEntry(e)|
  {
    hide Render, RenderKey, ValidText, ValidLiteral, SkipWs, At;
    var v := i + |RenderKey(e)|;
    var n := v + |Render(e.value)|;
    AtParts(s, i, RenderKey(e) + Render(e.value), e.behind);
    AtParts(s, i, RenderKey(e), Render(e.value));
    TextAt(s, v, e.value);
    BlankRun(s, n, e.behind);
    AtElements(s, n, e.behind);
  }

  lemma {:induction false} EntriesPlaces(s: seq<byte>, i: nat, es: seq<Entry>)
    requires es != [] && At(s, i, RenderEntries(es))
    ensures var e := i + |RenderEntry(es[0])|;
            && At(s, i, RenderEntry(es[0])) && e < |s| && s[e] == (if |es| == 1 then 0x7D else 0x2C)
            && (|es| == 1 ==> i + |RenderEntries(es)| == e + 1)
            && (|es| > 1 ==> At(s, e + 1, RenderEntries(es[1..]))
                             && i + |RenderEntries(es)| == e + 1 + |RenderEntries(es[1..])|)
  {
    hide RenderEntry;
    var first, rest := RenderEntry(es[0]), if |es| == 1 then [0x7D] else [0x2C] + RenderEntries(es[1..]);
    AtParts(s, i, first, rest);
    AtElements(s, i + |first|, rest);
    assert s[i + |first|] == rest[0];
    if |es| > 1 {
      AtParts(s, i + |first|, [0x2C], RenderEntries(es[1..]));
    }
  }

  lemma {:induction false} EntryStep(s: seq<byte>, i: nat, q: nat, k: nat, c: nat, v: nat, n: nat, e: nat,
      depth: nat, got: seq<Member>, key: seq<byte>, t: Json, d: nat)
    requires Terminated(s) && i < |s| && SkipWs(s, i) == q && q < |s| && ParseString(s, q) == ParsedString(key, k)
    requires k < |s| && SkipWs(s, k) == c < |s| && s[c] == COLON && c + 1 < |s| && SkipWs(s, c + 1) == v < |s|
    requires n < |s| && SkipWs(s, n) == e && Outcome(ParseValue(s, v, depth), depth, d, t, n)
    ensures ParseMembers(s, i, depth, got)
         == if depth + d <= NESTING_LIMIT then AfterMember(s, e, depth, got + [Member(key, t)]) else Bad
  {
    hide ParseValue, ParseString;
  }

  lemma {:induction false} EntryValue(e: Entry)
    requires ValidEntry(e)
    ensures ValidText(e.value) && ValidLiteral(e.key)
  {
  }

  lemma {:induction false} MembersStep(es: seq<Entry>, got: seq<Member>)
    requires es != [] && ValidEntries(es) && ValidText(es[0].value) && ValidLiteral(es[0].key)
    ensures got + MemberMeanings(es)
            == got + [Member(LiteralText(es[0].key), Meaning(es[0].value))] + MemberMeanings(es[1..])
    ensures |es| == 1 ==> MemberMeanings(es[1..]) == [] && EntriesDepth(es[1..]) == 0
    ensures EntriesDepth(es) == Max(Depth(es[0].value), EntriesDepth(es[1..]))
  {
    hide Meaning, Depth, ValidText, ValidLiteral, LiteralText, Max;
    var m := Member(LiteralText(es[0].key), Meaning(es[0].value));
    assert MemberMeanings(es) == [m] + MemberMeanings(es[1..]);
    assert got + ([m] + MemberMeanings(es[1..])) == got + [m] + MemberMeanings(es[1..]);
  }

  /** The first of these entries: its outcome decides the object, or hands over to what follows. */
  lemma {:induction false} EntryParses(s: seq<byte>, i: nat, e: Entry, last: byte, depth: nat, got: seq<Member>)
    requires Terminated(s) && ValidEntry(e) && ValidText(e.value) && ValidLiteral(e.key)
    requires At(s, i, RenderEntry(e)) && i + |RenderEntry(e)| < |s|
    requires s[i + |RenderEntry(e)|] == last && last > SP && !IsNumberChar(last)
    requires var v := i + |RenderKey(e)|; var n := v + |Render(e.value)|;
             v < |s| && Outcome(ParseValue(s, v, depth), depth, Depth(e.value), Meaning(e.value), n)
    ensures i < |s|
    ensures ParseMembers(s, i, depth, got)
         == if depth + Depth(e.value) <= NESTING_LIMIT
            then AfterMember(s, i + |RenderEntry(e)|, depth, got + [Member(LiteralText(e.key), Meaning(e.value))])
            else Bad
  {
    hide ParseValue, ParseString, ParseMembers, AfterMember, Render, RenderEntry, RenderKey, Meaning, Depth, SkipWs, At,
      ValidEntry, ValidText, ValidLiteral, LiteralText;
    EntryPlaces(s, i, e, last);
    KeyPlaces(s, i, e);
    var q := i + |e.before|;
    var k := q + |e.key| + 2;
    var v := i + |RenderKey(e)|;
    EntryStep(s, i, q, k, k + |e.gap1|, v, v + |Render(e.value)|, i + |RenderEntry(e)|, depth, got,
      LiteralText(e.key), Meaning(e.value), Depth(e.value));
  }

  lemma {:induction false} EntriesParse(s: seq<byte>, i: nat, es: seq<Entry>, depth: nat, got: seq<Member>)
    requires Terminated(s) && es != [] && ValidEntries(es) && depth <= NESTING_LIMIT
    requires At(s, i, RenderEntries(es)) && i + |RenderEntries(es)| < |s|
    ensures Outcome(ParseMembers(s, i, depth, got), depth, EntriesDepth(es), Object(got + MemberMeanings(es)),
            i + |RenderEntries(es)|)
    decreases es, 2
  {
    hide ParseValue, ParseMembers, Render, RenderEntry, RenderEntries, RenderKey, Meaning, MemberMeanings, Depth,
      EntriesDepth, SkipWs, At, ValidEntry, ValidText, ValidLiteral, LiteralText;
    var x := es[0];
    assert ValidEntry(x);
    EntryValue(x);
    EntriesPlaces(s, i, es);
    var e := i + |RenderEntry(x)|;
    EntryPlaces(s, i, x, s[e]);
    TextParses(s, i + |RenderKey(x)|, x.value, depth);
    EntryParses(s, i, x, s[e], depth, got);
    MembersStep(es, got);
    if |es| > 1 && depth + Depth(x.value) <= NESTING_LIMIT {
      EntriesParse(s, e + 1, es[1..], depth, got + [Member(LiteralText(x.key), Meaning(x.value))]);
    }
  }

  lemma {:induction false} FirstEntry(s: seq<byte>, i: nat, es: seq<Entry>)
    requires Terminated(s) && es != [] && ValidEntries(es) && At(s, i, RenderEntries(es))
    ensures i < |s| && s[SkipWs(s, i)] == QUOTE
  {
    hide RenderEntry, RenderEntries, RenderKey, ValidEntry, SkipWs, At;
    assert ValidEntry(es[0]);
    EntriesPlaces(s, i, es);
    EntryPlaces(s, i, es[0], s[i + |RenderEntry(es[0])|]);
    KeyPlaces(s, i, es[0]);
  }

  lemma {:induction false} BracedParses(s: seq<byte>, i: nat, x: Text, depth: nat)
    requires Terminated(s) && ValidText(x) && x.Braced? && depth <= NESTING_LIMIT
    requires At(s, i, Render(x)) && i + |Render(x)| < |s|
    ensures Outcome(ParseValue(s, i, depth), depth, Depth(x), Meaning(x), i + |Render(x)|)
    decreases x, 0
  {
    hide ParseMembers, RenderEntries, SkipWs, At;
    var es := x.entries;
    var rest := if es == [] then x.gap + [0x7D] else RenderEntries(es);
    AtParts(s, i, [0x7B], rest);
    AtElements(s, i, [0x7B]);
    if es == [] {
      AtParts(s, i + 1, x.gap, [0x7D]);
      AtElements(s, i + 1 + |x.gap|, [0x7D]);
      BlankRun(s, i + 1, x.gap);
      hide ValidText, Blank;
      OpensObject(s, i, i + 1 + |x.gap|, depth);
    } else {
      FirstEntry(s, i + 1, es);
      OpensObject(s, i, SkipWs(s, i + 1), depth);
      if depth < NESTING_LIMIT {
        EntriesParse(s, i + 1, es, depth + 1, []);
        assert [] + MemberMeanings(es) == MemberMeanings(es);
      }
    }
  }

  /** Wherever a text stands, it parses to its meaning and up to its end, exactly when it nests within 1000. */
  lemma {:induction false} TextParses(s: seq<byte>, i: nat, x: Text, depth: nat)
    requires Terminated(s) && ValidText(x) && depth <= NESTING_LIMIT && At(s, i, Render(x))
    requires i + |Render(x)| < |s| && (x.Numeral? ==> !IsNumberChar(s[i + |Render(x)|]))
    ensures Outcome(ParseValue(s, i, depth), depth, Depth(x), Meaning(x), i + |Render(x)|)
    decreases x, 1
  {
    hide ParseValue, Render, ValidText, At, Meaning;
    if x.Bracketed? {
      BracketedParses(s, i, x, depth);
    } else if x.Braced? {
      BracedParses(s, i, x, depth);
    } else {
      LeafParses(s, i, x, depth);
    }
  }

  // ---------------------------------------------------------------- nothing else parses

  lemma {:induction false} SkippedIsBlank(s: seq<byte>, i: nat)
    requires i < |s|
    ensures Blank(s[i..SkipWs(s, i)]) && At(s, i, s[i..SkipWs(s, i)])
  {
    WhiteBytes(s, i);
    AtSlice(s, i, SkipWs(s, i) - i);
  }

  lemma {:induction false} WhiteBytes(s: seq<byte>, i: nat)
    requires i <= |s|
    ensures forall k :: i <= k < WsEnd(s, i) ==> s[k] <= SP
    decreases |s| - i
  {
    if i == |s| {
    } else if s[i] <= SP {
      WhiteBytes(s, i + 1);
    }
  }

  /** What a text that stands at `i` and ends at `next` makes of a parse. */
  ghost predicate Reads(s: seq<byte>, i: nat, x: Text, depth: nat, r: Parsed)
  {
    && ValidText(x) && At(s, i, Render(x)) && r.Parsed? && r.next == i + |Render(x)|
    && r.value == Meaning(x) && depth + Depth(x) <= NESTING_LIMIT
  }

  lemma {:induction false} AcceptLeaf(s: seq<byte>, i: nat, depth: nat) returns (x: Text)
    requires i < |s| && Terminated(s) && ParseValue(s, i, depth).Parsed? && depth <= NESTING_LIMIT
    requires s[i] != 0x5B && s[i] != 0x7B
    ensures Reads(s, i, x, depth, ParseValue(s, i, depth))
  {
    hide ParseNumber, ParseString, ValidDecimal, RenderDecimal, DecimalValue, ValidLiteral, LiteralText;
    if IsNull(s, i) {
      x := Word(Null);
      AtSlice(s, i, 4);
      assert s[i..i + 4] == Render(x);
    } else if IsFalse(s, i) {
      x := Word(False);
      AtSlice(s, i, 5);
      assert s[i..i + 5] == Render(x);
    } else if IsTrue(s, i) {
      x := Word(True);
      AtSlice(s, i, 4);
      assert s[i..i + 4] == Render(x);
    } else if s[i] == QUOTE {
      var literal := AcceptQuoted(s, i);
      x := Quoted(literal);
    } else {
      var d := AcceptDecimal(s, i);
      x := Numeral(d);
    }
  }

  /** An element behind which the parser reaches `e`. */
  lemma {:induction false} AcceptElement(s: seq<byte>, i: nat, x: Text, depth: nat) returns (el: Element)
    requires i < |s| && Terminated(s) && Reads(s, SkipWs(s, i), x, depth, ParseValue(s, SkipWs(s, i), depth))
    ensures var next := ParseValue(s, SkipWs(s, i), depth).next;
            && ValidElement(el) && el.value == x && At(s, i, RenderElement(el))
            && i + |RenderElement(el)| == SkipWs(s, next)
  {
    hide ParseValue, Render, ValidText, SkipWs, Meaning, Depth, At;
    var v := SkipWs(s, i);
    var next := ParseValue(s, v, depth).next;
    var e := SkipWs(s, next);
    el := Element(s[i..v], x, s[next..e]);
    SkippedIsBlank(s, i);
    SkippedIsBlank(s, next);
    AtParts(s, i, el.before, Render(x));
    AtParts(s, i, el.before + Render(x), el.behind);
  }

  ghost predicate ReadsElements(s: seq<byte>, i: nat, es: seq<Element>, depth: nat, got: seq<Json>, r: Parsed)
  {
    && es != [] && ValidElements(es) && At(s, i, RenderElements(es)) && r.Parsed? && r.next == i + |RenderElements(es)|
    && r.value == Array(got + Meanings(es)) && depth + ElementsDepth(es) <= NESTING_LIMIT
  }

  lemma {:induction false} LastElement(s: seq<byte>, i: nat, el: Element, depth: nat, got: seq<Json>)
    requires ValidElement(el) && At(s, i, RenderElement(el)) && depth + Depth(el.value) <= NESTING_LIMIT
    requires i + |RenderElement(el)| < |s| && s[i + |RenderElement(el)|] == 0x5D
    ensures ValidText(el.value)
    ensures ReadsElements(s, i, [el], depth, got, Parsed(Array(got + [Meaning(el.value)]), i + |RenderElement(el)| + 1))
  {
    hide RenderElement, Meaning, Depth, ValidElement, ValidText, At;
    ElementValue(el);
    var e := i + |RenderElement(el)|;
    assert s[e..e + 1] == [0x5D];
    AtSlice(s, e, 1);
    AtParts(s, i, RenderElement(el), [0x5D]);
    assert RenderElements([el]) == RenderElement(el) + [0x5D];
    MeaningsStep([el], got);
  }

  lemma {:induction false} ElementBefore(s: seq<byte>, i: nat, el: Element, es: seq<Element>, depth: nat,
      got: seq<Json>, r: Parsed)
    requires ValidElement(el) && ValidText(el.value) && At(s, i, RenderElement(el))
    requires depth + Depth(el.value) <= NESTING_LIMIT
    requires i + |RenderElement(el)| < |s| && s[i + |RenderElement(el)|] == 0x2C
    requires ReadsElements(s, i + |RenderElement(el)| + 1, es, depth, got + [Meaning(el.value)], r)
    ensures ReadsElements(s, i, [el] + es, depth, got, r)
  {
    hide RenderElement, Meaning, Depth, ValidElement, ValidText, At;
    var e, all := i + |RenderElement(el)|, [el] + es;
    assert all[1..] == es && all[0] == el;
    assert s[e..e + 1] == [0x2C];
    AtSlice(s, e, 1);
    AtParts(s, e, [0x2C], RenderElements(es));
    AtParts(s, i, RenderElement(el), [0x2C] + RenderElements(es));
    assert RenderElements(all) == RenderElement(el) + ([0x2C] + RenderElements(es));
    assert forall k :: 0 <= k < |all| ==> all[k] == if k == 0 then el else es[k - 1];
    MeaningsStep(all, got);
  }

  /** The elements of an array that is accepted from `i` on. */
  lemma {:induction false} AcceptElements(s: seq<byte>, i: nat, depth: nat, got: seq<Json>) returns (es: seq<Element>)
    requires i < |s| && Terminated(s) && ParseItems(s, i, depth, got).Parsed? && depth <= NESTING_LIMIT
    ensures ReadsElements(s, i, es, depth, got, ParseItems(s, i, depth, got))
    decreases |s| - i, 1
  {
    hide ParseValue, ParseItems, SkipWs, Reads, ReadsElements, RenderElement, Meaning, Depth, At;
    ItemsUnfold(s, i, depth, got);
    var v := SkipWs(s, i);
    var x := AcceptValue(s, v, depth);
    var el := AcceptElement(s, i, x, depth);
    var e := i + |RenderElement(el)|;
    ReadsText(s, v, x, depth, ParseValue(s, v, depth));
    if s[e] == 0x5D {
      LastElement(s, i, el, depth, got);
      es := [el];
    } else {
      var rest := AcceptElements(s, e + 1, depth, got + [Meaning(x)]);
      ElementBefore(s, i, el, rest, depth, got, ParseItems(s, i, depth, got));
      es := [el] + rest;
    }
  }

  lemma {:induction false} ReadsText(s: seq<byte>, i: nat, x: Text, depth: nat, r: Parsed)
    requires Reads(s, i, x, depth, r)
    ensures ValidText(x) && r.Parsed? && r.value == Meaning(x) && depth + Depth(x) <= NESTING_LIMIT
  {
    hide ValidText, Meaning, Depth, At;
  }

  lemma {:induction false} ItemsUnfold(s: seq<byte>, i: nat, depth: nat, got: seq<Json>)
    requires i < |s| && Terminated(s) && ParseItems(s, i, depth, got).Parsed?
    ensures var r := ParseValue(s, SkipWs(s, i), depth);
            && r.Parsed? && SkipWs(s, i) >= i && SkipWs(s, r.next) > i
            && var e := SkipWs(s, r.next);
               && (s[e] == 0x5D || s[e] == 0x2C)
               && ParseItems(s, i, depth, got)
                  == if s[e] == 0x5D then Parsed(Array(got + [r.value]), e + 1)
                     else ParseItems(s, e + 1, depth, got + [r.value])
  {
    hide ParseValue, SkipWs;
  }

  /** The key of an entry that is accepted from `i` on, and where its value starts. */
  lemma {:induction false} AcceptKey(s: seq<byte>, i: nat) returns (key: Entry)
    requires i < |s| && Terminated(s) && ParseString(s, SkipWs(s, i)).ParsedString?
    requires var k := ParseString(s, SkipWs(s, i)).next; s[SkipWs(s, k)] == COLON && SkipWs(s, k) + 1 < |s|
    ensures var k := ParseString(s, SkipWs(s, i)).next;
            && ValidLiteral(key.key) && LiteralText(key.key) == ParseString(s, SkipWs(s, i)).text
            && Blank(key.before) && Blank(key.gap1) && Blank(key.gap2) && At(s, i, RenderKey(key))
            && i + |RenderKey(key)| == SkipWs(s, SkipWs(s, k) + 1)
  {
    hide ParseString, SkipWs, ValidLiteral, LiteralText, Blank, At;
    var q := SkipWs(s, i);
    var literal := AcceptQuoted(s, q);
    var k := ParseString(s, q).next;
    var c := SkipWs(s, k);
    var v := SkipWs(s, c + 1);
    key := Entry(s[i..q], literal, s[k..c], s[c + 1..v], Word(Null), []);
    SkippedIsBlank(s, i);
    SkippedIsBlank(s, k);
    SkippedIsBlank(s, c + 1);
    var quoted := [0x22] + Closed(literal);
    assert s[c..c + 1] == [0x3A];
    AtSlice(s, c, 1);
    AtParts(s, i, key.before, quoted);
    AtParts(s, i, key.before + quoted, key.gap1);
    AtParts(s, i, key.before + quoted + key.gap1, [0x3A]);
    AtParts(s, i, key.before + quoted + key.gap1 + [0x3A], key.gap2);
    assert RenderKey(key) == key.before + quoted + key.gap1 + [0x3A] + key.gap2;
  }

  /** The value of that entry, behind which the parser reaches `e`. */
  lemma {:induction false} AcceptEntry(s: seq<byte>, i: nat, key: Entry, x: Text, depth: nat) returns (en: Entry)
    requires i < |s| && Terminated(s) && i + |RenderKey(key)| < |s|
    requires ValidLiteral(key.key) && Blank(key.before) && Blank(key.gap1) && Blank(key.gap2)
             && At(s, i, RenderKey(key))
    requires Reads(s, i + |RenderKey(key)|, x, depth, ParseValue(s, i + |RenderKey(key)|, depth))
    ensures var next := ParseValue(s, i + |RenderKey(key)|, depth).next;
            && ValidEntry(en) && en.value == x && en.key == key.key && At(s, i, RenderEntry(en))
            && i + |RenderEntry(en)| == SkipWs(s, next)
  {
    hide ParseValue, Render, ValidText, ValidLiteral, SkipWs, Meaning, Depth, Blank, At;
    var v := i + |RenderKey(key)|;
    var next := ParseValue(s, v, depth).next;
    var e := SkipWs(s, next);
    en := key.(value := x, behind := s[next..e]);
    SkippedIsBlank(s, next);
    assert RenderKey(en) == RenderKey(key);
    hide RenderKey;
    AtParts(s, i, RenderKey(en), Render(x));
    AtParts(s, i, RenderKey(en) + Render(x), en.behind);
  }

  ghost predicate ReadsEntries(s: seq<byte>, i: nat, es: seq<Entry>, depth: nat, got: seq<Member>, r: Parsed)
  {
    && es != [] && ValidEntries(es) && At(s, i, RenderEntries(es)) && r.Parsed? && r.next == i + |RenderEntries(es)|
    && r.value == Object(got + MemberMeanings(es)) && depth + EntriesDepth(es) <= NESTING_LIMIT
  }

  function MemberOf(en: Entry): Member
    requires ValidLiteral(en.key) && ValidText(en.value)
  {
    Member(LiteralText(en.key), Meaning(en.value))
  }

  lemma {:induction false} LastEntry(s: seq<byte>, i: nat, en: Entry, depth: nat, got: seq<Member>)
    requires ValidEntry(en) && At(s, i, RenderEntry(en)) && depth + Depth(en.value) <= NESTING_LIMIT
    requires i + |RenderEntry(en)| < |s| && s[i + |RenderEntry(en)|] == 0x7D
    ensures ValidText(en.value) && ValidLiteral(en.key)
    ensures ReadsEntries(s, i, [en], depth, got, Parsed(Object(got + [MemberOf(en)]), i + |RenderEntry(en)| + 1))
  {
    hide RenderEntry, Meaning, Depth, ValidEntry, ValidText, ValidLiteral, LiteralText, At;
    EntryValue(en);
    var e := i + |RenderEntry(en)|;
    assert s[e..e + 1] == [0x7D];
    AtSlice(s, e, 1);
    AtParts(s, i, RenderEntry(en), [0x7D]);
    assert RenderEntries([en]) == RenderEntry(en) + [0x7D];
    MembersStep([en], got);
  }

  lemma {:induction false} EntryBefore(s: seq<byte>, i: nat, en: Entry, es: seq<Entry>, depth: nat, got: seq<Member>,
      r: Parsed)
    requires ValidEntry(en) && ValidText(en.value) && ValidLiteral(en.key) && At(s, i, RenderEntry(en))
    requires depth + Depth(en.value) <= NESTING_LIMIT
    requires i + |RenderEntry(en)| < |s| && s[i + |RenderEntry(en)|] == 0x2C
    requires ReadsEntries(s, i + |RenderEntry(en)| + 1, es, depth, got + [MemberOf(en)], r)
    ensures ReadsEntries(s, i, [en] + es, depth, got, r)
  {
    hide RenderEntry, Meaning, Depth, ValidEntry, ValidText, ValidLiteral, LiteralText, At;
    var e, all := i + |RenderEntry(en)|, [en] + es;
    assert all[1..] == es && all[0] == en;
    assert s[e..e + 1] == [0x2C];
    AtSlice(s, e, 1);
    AtParts(s, e, [0x2C], RenderEntries(es));
    AtParts(s, i, RenderEntry(en), [0x2C] + RenderEntries(es));
    assert RenderEntries(all) == RenderEntry(en) + ([0x2C] + RenderEntries(es));
    assert forall k :: 0 <= k < |all| ==> all[k] == if k == 0 then en else es[k - 1];
    MembersStep(all, got);
  }

  lemma {:induction false} MembersUnfold(s: seq<byte>, i: nat, depth: nat, got: seq<Member>)
    requires i < |s| && Terminated(s) && ParseMembers(s, i, depth, got).Parsed?
    ensures var key := ParseString(s, SkipWs(s, i));
            && key.ParsedString? && SkipWs(s, key.next) + 1 < |s| && s[SkipWs(s, key.next)] == COLON
            && SkipWs(s, SkipWs(s, key.next) + 1) > i
            && var r := ParseValue(s, SkipWs(s, SkipWs(s, key.next) + 1), depth);
               && r.Parsed? && SkipWs(s, r.next) > i
               && var e := SkipWs(s, r.next);
                  && (s[e] == 0x7D || s[e] == 0x2C)
                  && ParseMembers(s, i, depth, got)
                     == if s[e] == 0x7D then Parsed(Object(got + [Member(key.text, r.value)]), e + 1)
                        else ParseMembers(s, e + 1, depth, got + [Member(key.text, r.value)])
  {
    hide ParseValue, ParseString, SkipWs;
    var key := ParseString(s, SkipWs(s, i));
    assert key.ParsedString?;
    assert ParseMembers(s, i, depth, got) == AfterKey(s, SkipWs(s, key.next), depth, got, key.text);
    var c := SkipWs(s, key.next);
    assert s[c] == COLON;
    var r := ParseValue(s, SkipWs(s, c + 1), depth);
    assert AfterKey(s, c, depth, got, key.text)
        == AfterMember(s, SkipWs(s, r.next), depth, got + [Member(key.text, r.value)]);
  }

  /** The entries of an object that is accepted from `i` on. */
  lemma {:induction false} AcceptEntries(s: seq<byte>, i: nat, depth: nat, got: seq<Member>) returns (es: seq<Entry>)
    requires i < |s| && Terminated(s) && ParseMembers(s, i, depth, got).Parsed? && depth <= NESTING_LIMIT
    ensures ReadsEntries(s, i, es, depth, got, ParseMembers(s, i, depth, got))
    decreases |s| - i, 1
  {
    hide ParseValue, ParseString, ParseMembers, SkipWs, Reads, ReadsEntries, RenderEntry, RenderKey, Meaning, Depth, At,
      ValidEntry, ValidLiteral, LiteralText;
    MembersUnfold(s, i, depth, got);
    var key := AcceptKey(s, i);
    var v := i + |RenderKey(key)|;
    var x := AcceptValue(s, v, depth);
    var en := AcceptEntry(s, i, key, x, depth);
    var e := i + |RenderEntry(en)|;
    ReadsText(s, v, x, depth, ParseValue(s, v, depth));
    if s[e] == 0x7D {
      LastEntry(s, i, en, depth, got);
      es := [en];
    } else {
      var rest := AcceptEntries(s, e + 1, depth, got + [MemberOf(en)]);
      EntryBefore(s, i, en, rest, depth, got, ParseMembers(s, i, depth, got));
      es := [en] + rest;
    }
  }

  lemma {:induction false} EmptyBrackets(s: seq<byte>, i: nat, open: byte, close: byte) returns (gap: seq<byte>)
    requires Terminated(s) && i + 1 < |s| && s[i] == open && s[SkipWs(s, i + 1)] == close
    ensures Blank(gap) && At(s, i, [open] + (gap + [close])) && i + |gap| + 1 == SkipWs(s, i + 1)
  {
    hide SkipWs, Blank;
    var e := SkipWs(s, i + 1);
    gap := s[i + 1..e];
    SkippedIsBlank(s, i + 1);
    AtSlice(s, i, e + 1 - i);
    assert s[i..e + 1] == [open] + (gap + [close]);
  }

  /** A value that is accepted is a text, and is what the text means. */
  lemma {:induction false} AcceptValue(s: seq<byte>, i: nat, depth: nat) returns (x: Text)
    requires i < |s| && Terminated(s) && ParseValue(s, i, depth).Parsed? && depth <= NESTING_LIMIT
    ensures Reads(s, i, x, depth, ParseValue(s, i, depth))
    decreases |s| - i, 0
  {
    hide ParseValue, ParseItems, ParseMembers, SkipWs, Reads;
    if s[i] == 0x5B {
      OpensArray(s, i, SkipWs(s, i + 1), depth);
      if s[SkipWs(s, i + 1)] == 0x5D {
        var gap := EmptyBrackets(s, i, 0x5B, 0x5D);
        x := Bracketed(gap, []);
        ReadsEmpty(s, i, x, depth, ParseValue(s, i, depth));
      } else {
        var es := AcceptElements(s, i + 1, depth + 1, []);
        x := Bracketed([], es);
        ReadsArray(s, i, es, depth, ParseValue(s, i, depth));
      }
    } else if s[i] == 0x7B {
      OpensObject(s, i, SkipWs(s, i + 1), depth);
      if s[SkipWs(s, i + 1)] == 0x7D {
        var gap := EmptyBrackets(s, i, 0x7B, 0x7D);
        x := Braced(gap, []);
        ReadsEmpty(s, i, x, depth, ParseValue(s, i, depth));
      } else {
        var es := AcceptEntries(s, i + 1, depth + 1, []);
        x := Braced([], es);
        ReadsObject(s, i, es, depth, ParseValue(s, i, depth));
      }
    } else {
      x := AcceptLeaf(s, i, depth);
    }
  }

  lemma {:induction false} ReadsEmpty(s: seq<byte>, i: nat, x: Text, depth: nat, r: Parsed)
    requires (x.Bracketed? && x.elements == []) || (x.Braced? && x.entries == [])
    requires Blank(x.gap) && At(s, i, Render(x)) && depth < NESTING_LIMIT
    requires r == Parsed(if x.Bracketed? then Array([]) else Object([]), i + |x.gap| + 2)
    ensures Reads(s, i, x, depth, r)
  {
  }

  lemma {:induction false} ArrayText(es: seq<Element>)
    requires es != [] && ValidElements(es)
    ensures var x := Bracketed([], es);
            && ValidText(x) && Render(x) == [0x5B] + RenderElements(es) && Meaning(x) == Array(Meanings(es))
            && Depth(x) == 1 + ElementsDepth(es)
  {
    hide RenderElements, Meanings, ElementsDepth, ValidElement;
  }

  lemma {:induction false} ReadsArray(s: seq<byte>, i: nat, es: seq<Element>, depth: nat, r: Parsed)
    requires i < |s| && s[i] == 0x5B && ReadsElements(s, i + 1, es, depth + 1, [], r)
    ensures Reads(s, i, Bracketed([], es), depth, r)
  {
    hide ValidElement, RenderElements, Meanings, ElementsDepth, ValidText, Render, Meaning, Depth, At;
    ArrayText(es);
    assert s[i..i + 1] == [0x5B];
    AtSlice(s, i, 1);
    AtParts(s, i, [0x5B], RenderElements(es));
    assert [] + Meanings(es) == Meanings(es);
  }

  lemma {:induction false} ObjectText(es: seq<Entry>)
    requires es != [] && ValidEntries(es)
    ensures var x := Braced([], es);
            && ValidText(x) && Render(x) == [0x7B] + RenderEntries(es) && Meaning(x) == Object(MemberMeanings(es))
            && Depth(x) == 1 + EntriesDepth(es)
  {
    hide RenderEntries, MemberMeanings, EntriesDepth, ValidEntry;
  }

  lemma {:induction false} ReadsObject(s: seq<byte>, i: nat, es: seq<Entry>, depth: nat, r: Parsed)
    requires i < |s| && s[i] == 0x7B && ReadsEntries(s, i + 1, es, depth + 1, [], r)
    ensures Reads(s, i, Braced([], es), depth, r)
  {
    hide ValidEntry, RenderEntries, MemberMeanings, EntriesDepth, ValidText, Render, Meaning, Depth, At;
    ObjectText(es);
    assert s[i..i + 1] == [0x7B];
    AtSlice(s, i, 1);
    AtParts(s, i, [0x7B], RenderEntries(es));
    assert [] + MemberMeanings(es) == MemberMeanings(es);
  }

  // ---------------------------------------------------------------- whole inputs

  /** A byte order mark or none, white space, and a text. */
  datatype Document = Document(mark: bool, gap: seq<byte>, text: Text)

  predicate ValidDocument(d: Document) { Blank(d.gap) && ValidText(d.text) }

  function MarkText(mark: bool): seq<byte> { if mark then [0xEF, 0xBB, 0xBF] else [] }

  function RenderDocument(d: Document): seq<byte> { MarkText(d.mark) + d.gap + Render(d.text) }

  /** Where the text of a document that stands at the start begins. */
  lemma {:induction false} DocumentPlaces(s: seq<byte>, d: Document)
    requires Terminated(s) && ValidDocument(d) && RenderDocument(d) < s
    ensures var i := |MarkText(d.mark)| + |d.gap|;
            && BomEnd(s) == |MarkText(d.mark)| < |s| && SkipWs(s, BomEnd(s)) == i && At(s, i, Render(d.text))
            && i + |Render(d.text)| == |RenderDocument(d)| < |s|
  {
    hide Render, ValidText, SkipWs, At;
    var mark := MarkText(d.mark);
    var i := |mark| + |d.gap|;
    AtPrefix(s, RenderDocument(d));
    AtParts(s, 0, mark + d.gap, Render(d.text));
    AtParts(s, 0, mark, d.gap);
    AtElements(s, 0, mark);
    TextAt(s, i, d.text);
    FirstByte(d.text);
    AtElements(s, i, Render(d.text));
    AtElements(s, |mark|, d.gap);
    BlankRun(s, |mark|, d.gap);
    if d.mark {
      assert s[0] == mark[0] && s[1] == mark[1] && s[2] == mark[2];
    } else {
      assert s[0] < 0x80 by { assert s[0] == if d.gap == [] then Render(d.text)[0] else d.gap[0]; }
    }
  }

  /**
   Every text, with white space as it likes, parses to its meaning and stops at its end, exactly if it nests at
   most 1000 deep; a number must not be followed by another number character.
   */
  lemma {:induction false} DocumentParses(s: seq<byte>, d: Document)
    requires Terminated(s) && ValidDocument(d) && RenderDocument(d) < s
    requires d.text.Numeral? ==> !IsNumberChar(s[|RenderDocument(d)|])
    ensures Parse(s) == if Depth(d.text) <= 1000 then Parsed(Meaning(d.text), |RenderDocument(d)|) else Bad
  {
    hide Render, ValidText, SkipWs, BomEnd, ParseValue, RenderDocument, Meaning, At;
    DocumentPlaces(s, d);
    TextParses(s, |MarkText(d.mark)| + |d.gap|, d.text, 0);
  }

  /** What is accepted is such a text, and is what it means. */
  lemma {:induction false} AcceptDocument(s: seq<byte>) returns (d: Document)
    requires Terminated(s) && Parse(s).Parsed?
    ensures ValidDocument(d) && RenderDocument(d) < s && Depth(d.text) <= 1000
    ensures Parse(s) == Parsed(Meaning(d.text), |RenderDocument(d)|)
  {
    hide Render, ValidText, SkipWs, ParseValue, Meaning, Depth, Blank;
    var b := BomEnd(s);
    var i := SkipWs(s, b);
    var x := AcceptValue(s, i, 0);
    d := Document(b == 3, s[b..i], x);
    SkippedIsBlank(s, b);
    assert s[..b] == MarkText(d.mark);
    assert s[..i] == MarkText(d.mark) + d.gap;
    assert At(s, 0, s[..i]) by { AtPrefix(s, s[..i]); }
    hide At;
    AtParts(s, 0, s[..i], Render(x));
    AtPrefix(s, RenderDocument(d));
  }

  /** A decimal at `i` is enough for the parser to take some number there. */
  lemma {:induction false} SomeNumber(s: seq<byte>, i: nat, d: Decimal)
    requires Terminated(s) && ValidDecimal(d) && At(s, i, RenderDecimal(d)) && i < |s|
    ensures (s[i] == MINUS || IsDigit(s[i])) && ParseNumber(s, i).Parsed?
  {
    hide RenderDecimal, DigitsEnd, ValidDecimal, NumberCharsEnd, At;
    DecimalCut(s, i, d);
    DecimalNotEmpty(d);
    assert |RenderDecimal(d)| <= 63 by { ShortDecimal(d); }
    var p := EndsOf(d, i);
    DecimalBytes(s, i, d);
    NumberBytes(s, i, p);
    NumberCharsReach(s, i, p.x, 63);
    StillNumber(s, i, p, NumberCharsEnd(s, i, 63));
  }

  lemma {:induction false} ShortDecimal(d: Decimal)
    requires ValidDecimal(d)
    ensures |RenderDecimal(d)| <= 63
  {
  }

  lemma {:induction false} NumberCharsReach(s: seq<byte>, i: nat, j: nat, n: nat)
    requires i <= j <= i + n && j <= |s| && forall k :: i <= k < j ==> IsNumberChar(s[k])
    ensures NumberCharsEnd(s, i, n) >= j
    decreases n
  {
    if i == j {
    } else {
      NumberCharsReach(s, i + 1, j, n - 1);
    }
  }

  lemma {:induction false} StillNumber(s: seq<byte>, i: nat, p: Places5, e: nat)
    requires Cuts(s, i, p) && (p.a < p.b || (i < p.a && p.b + 1 < p.c)) && p.x <= e <= |s|
    ensures NumberEnd(s, i, e) > i
  {
    assert i == p.a ==> IsDigit(s[i]);
    assert SignEnd(s, i, e) == p.a;
    if p.a < p.b {
      assert DigitsEnd(s, p.a, e) > p.a;
    } else {
      assert s[p.a] == POINT && DigitsEnd(s, p.a, e) == p.a;
      assert IsDigit(s[p.a + 1]) && DigitsEnd(s, p.a + 1, e) > p.a + 1;
    }
  }

  /** The input starts with a text that nests within 1000. */
  ghost predicate StartsWithText(s: seq<byte>)
  {
    exists d :: StartsWith(s, d)
  }

  predicate StartsWith(s: seq<byte>, d: Document)
  {
    ValidDocument(d) && RenderDocument(d) < s && Depth(d.text) <= 1000
  }

  /** Input is accepted if and only if it starts with a text; everything else is refused. */
  lemma {:induction false} ParsesExactlyTexts(s: seq<byte>)
    requires Terminated(s)
    ensures Parse(s).Parsed? <==> StartsWithText(s)
  {
    hide RenderDocument, ValidDocument, Depth, Parse;
    if Parse(s).Parsed? {
      var d := AcceptDocument(s);
      assert StartsWith(s, d);
    }
    if StartsWithText(s) {
      var d :| StartsWith(s, d);
      if d.text.Numeral? {
        NumeralParses(s, d);
      } else {
        DocumentParses(s, d);
      }
    }
  }

  lemma {:induction false} NumeralParses(s: seq<byte>, d: Document)
    requires Terminated(s) && ValidDocument(d) && RenderDocument(d) < s && d.text.Numeral?
    ensures Parse(s).Parsed?
  {
    hide ParseNumber, SkipWs, BomEnd, RenderDocument, RenderDecimal, ValidDecimal;
    DocumentPlaces(s, d);
    SomeNumber(s, |MarkText(d.mark)| + |d.gap|, d.text.decimal);
  }
}
