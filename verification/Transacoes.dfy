/**
 From the bytes a client sent to the transaction the controller works with: the request head, the
 place of the body, the parsed JSON and its three members (`request_parser` and `parse_transacoes`).
 */
module Transacoes {
  import opened Bytes
  import opened JsonString
  import opened JsonTree
  import opened JsonGrammar
  import opened JsonRoundTrip
  import opened JsonLookup
  import opened ItemList
  import opened ItemTrees
  import opened ItemValues
  import ItemCompare
  import C = JsonCompare
  import N = JsonNumbers
  import P = JsonParser
  import T = JsonTexts
  import J = JsonPrinter
  import H = HttpGrammar
  import M = HttpMessages
  import HttpParser

  const MAX_REQ_RESP_SIZE := 4096
  const MAX_HEADERS := 100
  const TWO_TO_THE_53 := 0x20_0000_0000_0000
  const TWO_TO_THE_63 := 0x8000_0000_0000_0000

  const VALOR: seq<byte> := [0x76, 0x61, 0x6C, 0x6F, 0x72]
  const TIPO: seq<byte> := [0x74, 0x69, 0x70, 0x6F]
  const DESCRICAO: seq<byte> := [0x64, 0x65, 0x73, 0x63, 0x72, 0x69, 0x63, 0x61, 0x6F]

  const GET_TEXT: seq<byte> := [0x47, 0x45, 0x54]
  const POST_TEXT: seq<byte> := [0x50, 0x4F, 0x53, 0x54]

  datatype ParserError = ParserOk | ParserInvalid

  datatype Verb = Get | Post

  /** The patterns of `res`, in order. */
  datatype Uri = UriTransacao | UriExtrato | UriExit | UriPing

  const URIS := [UriTransacao, UriExtrato, UriExit, UriPing]

  // ---------------------------------------------------------------- the three members

  /** What a transaction asks for. */
  datatype Wanted = Wanted(valor: int, tipo: byte, descricao: seq<byte>)

  /** `strtod` rounds to a double, and a double holds these integers exactly. */
  ghost predicate Exact(round: real -> real)
  {
    forall n: int :: ExactAt(round, n)
  }

  predicate ExactAt(round: real -> real, n: int)
  {
    -TWO_TO_THE_53 <= n <= TWO_TO_THE_53 ==> round(n as real) == n as real
  }

  /** The conversion to `int64_t`; out of range it is undefined, and `undefined` is what it then leaves. */
  function Int64Of(n: int, undefined: int): int
  {
    if -TWO_TO_THE_63 <= n < TWO_TO_THE_63 then n else undefined
  }

  predicate GoodValor(v: Option<Json>, round: real -> real)
  {
    && v.Some? && v.value.Number?
    && var n := round(v.value.value); 0.0 <= n <= TWO_TO_THE_63 as real && n == n.Floor as real
  }

  predicate GoodTipo(v: Option<Json>)
  {
    v.Some? && v.value.String? && (v.value.text == [0x63] || v.value.text == [0x64])
  }

  predicate GoodDescricao(v: Option<Json>)
  {
    v.Some? && v.value.String? && 1 <= |v.value.text| <= 10
  }

  /** What the first members of these names ask for, with the rounded number. */
  function WantedBy(t: Json, round: real -> real): Option<Wanted>
  {
    var valor, tipo, descricao := Lookup(t, VALOR), Lookup(t, TIPO), Lookup(t, DESCRICAO);
    if GoodValor(valor, round) && GoodTipo(tipo) && GoodDescricao(descricao) then
      Some(Wanted(round(valor.value.value).Floor, tipo.value.text[0], descricao.value.text))
    else None
  }

  /** The body as `cJSON_Parse` sees it: up to the first NUL. */
  function Body(buffer: seq<byte>, loc: nat): (s: seq<byte>)
    requires loc <= |buffer|
    ensures Terminated(s)
  {
    CString(buffer[loc..]) + [NUL]
  }

  function WantedFrom(buffer: seq<byte>, loc: nat, round: real -> real): Option<Wanted>
    requires loc <= |buffer|
  {
    match Parse(Body(buffer, loc))
    case Bad => None
    case Parsed(t, _) => WantedBy(t, round)
  }

  class Transacao {
    var id: nat
    var valor: int
    var tipo: byte
    const descricao: array<byte>

    constructor ()
      ensures descricao.Length == 10 && fresh(descricao)
    {
      id, valor, tipo := 0, 0, 0;
      descricao := new byte[10](_ => NUL);
    }
  }

  class RequestData {
    var uri: Uri
    var verb: Verb
    var bodyLoc: nat
    var id: nat

    constructor ()
    {
      uri, verb, bodyLoc, id := UriTransacao, Get, 0, 0;
    }
  }

  /** What `cJSON_IsNumber`, `cJSON_IsString` and the fields of an item say of its value. */
  ghost predicate Reads(item: Item, v: Json)
    reads item
  {
    && (v.Number? <==> item.kind == KindNumber) && (v.Number? ==> v.value == item.number)
    && (v.String? <==> item.kind == KindString) && (v.String? ==> v.text == item.text)
  }

  /** `cJSON_GetObjectItemCaseSensitive`; the children of an array have no names, so none is found there. */
  method GetObjectItem(parent: Item, name: seq<byte>, ghost sh: Shape) returns (item: Item?)
    requires ItemCompare.Rooted(parent, sh)
    ensures match Lookup(Value(sh), name)
            case None => item == null
            case Some(v) => item != null && Reads(item, v)
  {
    hide Value, Tree;
    ItemCompare.Children(parent, sh);
    assert allocated(Foot(sh));
    if parent.kind != KindObject {
      return null;
    }
    ghost var j;
    item, j := ItemCompare.GetObjectItem(parent, name, sh);
    if item != null {
      ItemCompare.ObjectKid(sh, j);
      ItemCompare.Children(item, sh.kids[j]);
    }
  }

  /** The part of `parse_transacoes` that takes the three members out of the parsed tree. */
  method TakeMembers(item: Item, id: nat, transacao: Transacao, round: real -> real, undefined: int, ghost sh: Shape)
    returns (err: ParserError)
    requires ItemCompare.Rooted(item, sh) && transacao.descricao.Length == 10
    modifies transacao, transacao.descricao
    ensures match WantedBy(old(Value(sh)), round)
            case None => err == ParserInvalid
            case Some(w) =>
              && err == ParserOk && transacao.id == id && transacao.tipo == w.tipo
              && transacao.valor == Int64Of(w.valor, undefined)
              && transacao.descricao[..] == w.descricao + old(transacao.descricao[..])[|w.descricao|..]
  {
    hide Value, ItemCompare.Rooted, Lookup;
    assert allocated(Foot(sh));
    var valor := GetObjectItem(item, VALOR, sh);
    if valor == null || valor.kind != KindNumber {
      return ParserInvalid;
    }
    var n := round(valor.number);
    if n < 0.0 || n != n.Floor as real || n > TWO_TO_THE_63 as real {
      return ParserInvalid;
    }
    transacao.valor := Int64Of(n.Floor, undefined);
    var tipo := GetObjectItem(item, TIPO, sh);
    if tipo == null || tipo.kind != KindString || |tipo.text| != 1 || (tipo.text[0] != 0x63 && tipo.text[0] != 0x64) {
      return ParserInvalid;
    }
    transacao.tipo := tipo.text[0];
    var descricao := GetObjectItem(item, DESCRICAO, sh);
    if descricao == null || descricao.kind != KindString || |descricao.text| > 10 || |descricao.text| < 1 {
      return ParserInvalid;
    }
    Copy(transacao.descricao, descricao.text);
    transacao.id := id;
    return ParserOk;
  }

  /** `parse_transacoes`: on success the fields are the wanted ones, and the rest of `descricao` is untouched. */
  method ParseTransacoes(buffer: seq<byte>, reqdata: RequestData, transacao: Transacao, round: real -> real,
      undefined: int)
    returns (err: ParserError)
    requires reqdata.bodyLoc <= |buffer| && transacao.descricao.Length == 10
    modifies transacao, transacao.descricao
    ensures match WantedFrom(buffer, reqdata.bodyLoc, round)
            case None => err == ParserInvalid
            case Some(w) =>
              && err == ParserOk && transacao.id == reqdata.id && transacao.tipo == w.tipo
              && transacao.valor == Int64Of(w.valor, undefined)
              && transacao.descricao[..] == w.descricao + old(transacao.descricao[..])[|w.descricao|..]
  {
    hide Value, Tree, WantedBy, Parse, Body;
    ghost var sh;
    var item, end;
    item, end, sh := P.Parse(Body(buffer, reqdata.bodyLoc));
    if item == null {
      return ParserInvalid;
    }
    err := TakeMembers(item, reqdata.id, transacao, round, undefined, sh);
  }

  /** `memcpy` to the start of an array. */
  method Copy(a: array<byte>, w: seq<byte>)
    requires |w| <= a.Length
    modifies a
    ensures a[..] == w + old(a[..])[|w|..]
  {
    var i := 0;
    while i < |w|
      invariant i <= |w| && forall k :: 0 <= k < a.Length ==> a[k] == if k < i then w[k] else old(a[k])
    {
      a[i] := w[i];
      i := i + 1;
    }
  }

  // ---------------------------------------------------------------- the request line's part

  /** Whether a string starts with this text at `i`. */
  predicate StartsAt(s: seq<byte>, i: nat, w: seq<byte>)
  {
    i + |w| <= |s| && s[i..i + |w|] == w
  }

  /** `map_method`: by prefix, so a longer method name that starts like GET or POST is taken too. */
  function VerbAt(s: seq<byte>, i: nat): Option<Verb>
  {
    if StartsAt(s, i, GET_TEXT) then Some(Get) else if StartsAt(s, i, POST_TEXT) then Some(Post) else None
  }

  /** Which pattern wins: the last that matches, unless a match other than the first pattern's came before it. */
  predicate Selects(matches: seq<bool>, index: nat)
  {
    && index < |matches| && matches[index]
    && (forall k :: index < k < |matches| ==> !matches[k])
    && (forall k :: 0 < k < index ==> !matches[k])
  }

  /** The loop over the patterns; a pattern's result in `matches` stands for `regexec`. */
  method SelectPattern(matches: seq<bool>) returns (index: int)
    ensures if index >= 0 then Selects(matches, index) else forall k: nat :: !Selects(matches, k)
  {
    index := -1;
    for i := 0 to |matches|
      invariant -1 <= index < i
      invariant if index < 0 then forall k :: 0 <= k < i ==> !matches[k] else Selects(matches[..i], index)
    {
      if matches[i] {
        if index > 0 {
          forall k: nat ensures !Selects(matches, k) {
            assert matches[..i][index] && matches[index] && matches[i];
          }
          return -1;
        }
        if index == 0 {
          assert forall k :: 0 < k < i ==> !matches[..i][k] && !matches[k];
        }
        index := i;
      }
      assert matches[..i + 1][..i] == matches[..i];
    }
    assert matches[..|matches|] == matches;
  }

  /** `request_parser`; `matches` stands for `regexec` and `scanned` for `sscanf` of the id. */
  method RequestParser(buffer: seq<byte>, matches: seq<bool>, scanned: Option<nat>, sse: bool, reqdata: RequestData)
    returns (err: ParserError)
    requires |buffer| == MAX_REQ_RESP_SIZE + 1 && |matches| == 4
    modifies reqdata
    ensures var head := H.RequestHead(buffer[..MAX_REQ_RESP_SIZE], MAX_HEADERS);
            err == ParserOk <==>
              && head.Ok? && VerbAt(buffer, head.value.line.methodName.start).Some?
              && exists k: nat :: Selects(matches, k) && (k < 2 ==> scanned.Some?)
    ensures err == ParserOk ==>
              var head := H.RequestHead(buffer[..MAX_REQ_RESP_SIZE], MAX_HEADERS);
              && reqdata.bodyLoc == head.next && Some(reqdata.verb) == VerbAt(buffer, head.value.line.methodName.start)
              && (Selects(matches, 0) ==> reqdata.uri == UriTransacao && reqdata.id == scanned.value)
              && (Selects(matches, 1) ==> reqdata.uri == UriExtrato && reqdata.id == scanned.value)
              && (Selects(matches, 2) ==> reqdata.uri == UriExit && reqdata.id == 0xFFFF_FFFF_FFFF_FFFF)
              && (Selects(matches, 3) ==> reqdata.uri == UriPing && reqdata.id == 0xFFFF_FFFF_FFFF_FFFF)
    ensures err != ParserOk ==> unchanged(reqdata)
  {
    hide H.RequestHead, VerbAt;
    var headers := new H.Header[MAX_HEADERS](_ => H.Header(None, H.Span(0, 0)));
    var n, verbAt, _, _, _ := HttpParser.PhrParseRequest(buffer[..MAX_REQ_RESP_SIZE], headers, 0, sse);
    if n < 0 {
      return ParserInvalid;
    }
    var verb := VerbAt(buffer, verbAt.start);
    if verb.None? {
      return ParserInvalid;
    }
    var index := SelectPattern(matches);
    if index < 0 {
      return ParserInvalid;
    }
    var id := TWO_TO_THE_64 - 1;
    if index < 2 {
      if scanned.None? {
        return ParserInvalid;
      }
      id := scanned.value;
    }
    reqdata.bodyLoc, reqdata.verb, reqdata.uri, reqdata.id := n, verb.value, URIS[index], id;
    return ParserOk;
  }

  /** The verb of a head is told from the first bytes of its method: GET or POST, whatever follows them. */
  lemma {:induction false} VerbOfHead(buffer: seq<byte>, h: M.Head)
    requires M.ValidHead(h, MAX_HEADERS) && M.Render(h) <= buffer
    ensures var verb := VerbAt(buffer, |M.RenderLead(h.lead)|);
            && (verb == Some(Get) <==> [0x47, 0x45, 0x54] <= h.line.verb)
            && (verb == Some(Post) <==> [0x50, 0x4F, 0x53, 0x54] <= h.line.verb)
  {
    hide M.ValidFields, M.RenderFields, M.Count;
    var i, word := |M.RenderLead(h.lead)|, h.line.verb;
    AtPrefix(buffer, M.Render(h));
    AtParts(buffer, 0, M.RenderLead(h.lead) + M.RenderLine(h.line), M.RenderFields(h.fields));
    AtParts(buffer, 0, M.RenderLead(h.lead), M.RenderLine(h.line));
    M.AtLine(buffer, i, h.line);
    AtElements(buffer, i, word + M.Spaces(h.line.gap1));
    PrefixAt(buffer, i, word, GET_TEXT);
    PrefixAt(buffer, i, word, POST_TEXT);
    assert GET_TEXT <= word ==> word[0] == 0x47;
  }

  /** A text without SP stands at the start of a word that a SP follows exactly if it starts the word. */
  lemma {:induction false} PrefixAt(s: seq<byte>, i: nat, word: seq<byte>, w: seq<byte>)
    requires i + |word| < |s| && s[i + |word|] == SP && s[i..i + |word|] == word && SP !in w
    ensures StartsAt(s, i, w) <==> w <= word
  {
    if |w| <= |word| {
      assert s[i..i + |w|] == word[..|w|];
    } else if i + |w| <= |s| {
      assert s[i..i + |w|][|word|] == SP;
    }
  }

  // ---------------------------------------------------------------- end to end

  lemma {:induction false} CStringOf(w: seq<byte>, rest: seq<byte>)
    requires NUL !in w && rest != [] && rest[0] == NUL
    ensures CString(w + rest) == w
    decreases w
  {
    if w == [] {
      assert w + rest == rest;
    } else {
      assert (w + rest)[1..] == w[1..] + rest;
      CStringOf(w[1..], rest);
    }
  }

  /** Both parsers on one buffer: the head says where the body starts, and the body what is wanted. */
  function Received(buffer: seq<byte>, round: real -> real): Option<Wanted>
    requires |buffer| == MAX_REQ_RESP_SIZE + 1
  {
    match H.RequestHead(buffer[..MAX_REQ_RESP_SIZE], MAX_HEADERS)
    case Ok(_, n) => WantedFrom(buffer, n, round)
    case Fail => None
    case Partial => None
  }

  /** A valid head with the printed tree behind it, zero-padded, within the 4096 bytes that are read. */
  ghost predicate Sent(buffer: seq<byte>, h: M.Head, t: Json, format: bool)
  {
    && |buffer| == MAX_REQ_RESP_SIZE + 1 && M.ValidHead(h, MAX_HEADERS) && ValidTree(t)
    && var message := M.Render(h) + ValueText(t, 0, format);
       |message| <= MAX_REQ_RESP_SIZE && message <= buffer && buffer[|message|] == NUL
  }

  /** What is received is what the tree that was sent asks for; a tree that nests too deep is refused. */
  lemma {:induction false} EndToEnd(buffer: seq<byte>, h: M.Head, t: Json, format: bool, round: real -> real)
    requires Sent(buffer, h, t, format)
    ensures Received(buffer, round) == if Nesting(t) <= NESTING_LIMIT then WantedBy(t, round) else None
  {
    hide ValueText, M.Render, M.Parts, M.ValidLine, M.ValidFields, ValidTree, H.RequestHead, Parse, WantedBy;
    var head, text := M.Render(h), ValueText(t, 0, format);
    var s := buffer[..MAX_REQ_RESP_SIZE];
    assert head <= s by { assert head == (head + text)[..|head|] == buffer[..|head|]; }
    M.RenderedHeadParses(s, h, MAX_HEADERS);
    var rest := buffer[|head| + |text|..];
    assert buffer == buffer[..|head + text|] + rest == head + text + rest;
    assert buffer[|head|..] == text + rest;
    J.TextNoNul(t, 0, format);
    CStringOf(text, rest);
    RoundTrip(t, format, [NUL]);
  }

  /** For distinct keys: exactly these three members decide, wherever they stand and whatever else there is. */
  lemma {:induction false} WantedMembers(members: seq<Member>, w: Wanted, round: real -> real)
    requires DistinctKeys(members)
    ensures WantedBy(Object(members), round) == Some(w) <==>
              && (exists v :: Member(VALOR, Number(v)) in members && round(v) == w.valor as real)
              && 0 <= w.valor <= TWO_TO_THE_63
              && Member(TIPO, String([w.tipo])) in members && (w.tipo == 0x63 || w.tipo == 0x64)
              && Member(DESCRICAO, String(w.descricao)) in members && 1 <= |w.descricao| <= 10
  {
    forall v ensures Lookup(Object(members), VALOR) == Some(v) <==> Member(VALOR, v) in members {
      DistinctLookup(members, VALOR, 0, v);
    }
    DistinctLookup(members, TIPO, 0, String([w.tipo]));
    DistinctLookup(members, DESCRICAO, 0, String(w.descricao));
    assert members[0..] == members;
  }

  // ---------------------------------------------------------------- large values

  /** Whatever an undefined conversion leaves, an accepted valor is stored as it is if and only if it is below 2^63. */
  lemma {:induction false} ValorStoredExactly(n: int, undefined: int)
    requires 0 <= n <= TWO_TO_THE_63 && -TWO_TO_THE_63 <= undefined < TWO_TO_THE_63
    ensures Int64Of(n, undefined) == n <==> n < TWO_TO_THE_63
  {
  }

  /** A valor that a double holds exactly is wanted as it was sent. */
  lemma {:induction false} ExactValor(members: seq<Member>, n: nat, w: Wanted, round: real -> real)
    requires DistinctKeys(members) && Exact(round) && n <= TWO_TO_THE_53 && Member(VALOR, Number(n as real)) in members
    requires WantedBy(Object(members), round) == Some(w)
    ensures w.valor == n
  {
    assert ExactAt(round, n);
    DistinctLookup(members, VALOR, 0, Number(n as real));
    assert members[0..] == members;
  }

  /** A member behind white space at `i0`: its key, its value up to `e`, and the comma or brace there. */
  lemma {:induction false} MemberRun(s: seq<byte>, i: nat, e: nat, m: Member, depth: nat, got: seq<Member>)
    requires Terminated(s) && NUL !in m.key && At(s, i, StringText(m.key)) && i + |StringText(m.key)| + 1 < e < |s|
    requires var c := i + |StringText(m.key)|; s[c] == COLON && s[c + 1] > SP
    requires var r := ParseValue(s, i + |StringText(m.key)| + 1, depth); r.Parsed? && r.value == m.value && r.next == e
    requires (s[e] == COMMA || s[e] == 0x7D) && depth + Nesting(m.value) <= NESTING_LIMIT
    ensures ParseMembers(s, i, depth, got)
         == if s[e] == COMMA then ParseMembers(s, e + 1, depth, got + [m]) else Parsed(Object(got + [m]), e + 1)
  {
    hide ParseValue, ParseMembers, ParseString, StringText, At;
    var c := i + |StringText(m.key)|;
    StringRun(s, i, m.key);
    WsRun(s, i, i);
    WsRun(s, c, c);
    WsRun(s, c + 1, c + 1);
    WsRun(s, e, e);
    MemberStep(s, i, i, c, c + 1, depth, got, e, m);
  }

  /** The parts of the body: the first member, the second and the third. */
  function LargeFirst(n: nat): seq<byte> { StringText(VALOR) + [COLON] + DecimalText(n) + [COMMA] }

  function LargeSecond(): seq<byte> { StringText(TIPO) + [COLON] + StringText([0x63]) + [COMMA] }

  function LargeThird(): seq<byte> { StringText(DESCRICAO) + [COLON] + StringText([0x78]) + [0x7D] }

  /** The body with the valor `n`, the tipo c and the descricao x. */
  function LargeBody(n: nat): seq<byte>
  {
    [0x7B] + LargeFirst(n) + LargeSecond() + LargeThird() + [NUL]
  }

  /** The pieces of the body stand one behind the other. */
  lemma {:induction false} LargePlaces(n: nat)
    ensures var s, first := LargeBody(n), 1 + |LargeFirst(n)|;
            && s[0] == 0x7B && At(s, 1, LargeFirst(n)) && At(s, first, LargeSecond())
              && At(s, first + |LargeSecond()|, LargeThird())
            && |s| == first + |LargeSecond()| + |LargeThird()| + 1
  {
    hide LargeFirst, LargeSecond, LargeThird;
    var s, a, b, c := LargeBody(n), LargeFirst(n), LargeSecond(), LargeThird();
    AtPrefix(s, s);
    AtParts(s, 0, [0x7B] + a + b + c, [NUL]);
    AtParts(s, 0, [0x7B] + a + b, c);
    AtParts(s, 0, [0x7B] + a, b);
    AtParts(s, 0, [0x7B], a);
  }

  /** A member's key, colon, value and the byte behind it, at `i`. */
  lemma {:induction false} PiecePlaces(s: seq<byte>, i: nat, key: seq<byte>, value: seq<byte>, last: byte)
    requires At(s, i, key + [COLON] + value + [last])
    ensures At(s, i, key) && At(s, i + |key| + 1, value)
    ensures i + |key| + 1 + |value| < |s| && s[i + |key|] == COLON && s[i + |key| + 1 + |value|] == last
  {
    AtParts(s, i, key + [COLON] + value, [last]);
    AtParts(s, i, key + [COLON], value);
    AtParts(s, i, key, [COLON]);
    AtElements(s, i + |key|, [COLON]);
    AtElements(s, i + |key| + 1 + |value|, [last]);
  }

  function LargeMembers(n: nat): seq<Member>
  {
    [Member(VALOR, Number(n as real)), Member(TIPO, String([0x63])), Member(DESCRICAO, String([0x78]))]
  }

  lemma {:induction false} NumberValueRun(s: seq<byte>, i: nat, n: nat)
    requires Terminated(s) && |DecimalText(n)| <= 63 && At(s, i, DecimalText(n))
    requires i + |DecimalText(n)| < |s| && s[i + |DecimalText(n)|] == COMMA
    ensures var r := ParseValue(s, i, 1); r.Parsed? && r.value == Number(n as real) && r.next == i + |DecimalText(n)|
    ensures s[i] > SP
  {
    hide ParseNumber;
    DecimalRun(s, i, n);
  }

  lemma {:induction false} StringValueRun(s: seq<byte>, i: nat, t: seq<byte>)
    requires Terminated(s) && NUL !in t && At(s, i, StringText(t)) && i + |StringText(t)| < |s|
    ensures var r := ParseValue(s, i, 1); r.Parsed? && r.value == String(t) && r.next == i + |StringText(t)|
    ensures s[i] > SP
  {
    hide ParseString, StringText;
    StringRun(s, i, t);
  }

  lemma {:induction false} FirstPiece(s: seq<byte>, n: nat)
    requires Terminated(s) && |DecimalText(n)| <= 63 && At(s, 1, LargeFirst(n))
    ensures 1 + |LargeFirst(n)| <= |s| && s[1] == QUOTE
    ensures 1 + |LargeFirst(n)| < |s| ==>
              ParseMembers(s, 1, 1, []) == ParseMembers(s, 1 + |LargeFirst(n)|, 1, [Member(VALOR, Number(n as real))])
  {
    hide StringText, DecimalText, ParseValue, ParseMembers, ParseString, WsEnd, SkipWs, At;
    var key, value := StringText(VALOR), DecimalText(n);
    PiecePlaces(s, 1, key, value, COMMA);
    StringRun(s, 1, VALOR);
    NumberValueRun(s, 1 + |key| + 1, n);
    var m, e := Member(VALOR, Number(n as real)), 1 + |key| + 1 + |value|;
    MemberRun(s, 1, e, m, 1, []);
    assert [] + [m] == [m];
  }

  lemma {:induction false} StringPiece(s: seq<byte>, i: nat, key: seq<byte>, t: seq<byte>, last: byte, got: seq<Member>)
    requires Terminated(s) && NUL !in key && NUL !in t && (last == COMMA || last == 0x7D)
    requires At(s, i, StringText(key) + [COLON] + StringText(t) + [last])
    ensures var e, m := i + |StringText(key)| + 1 + |StringText(t)|, Member(key, String(t));
            && e < |s| && (e + 1 < |s| || last == 0x7D ==>
            ParseMembers(s, i, 1, got)
            == if last == COMMA then ParseMembers(s, e + 1, 1, got + [m]) else Parsed(Object(got + [m]), e + 1))
  {
    hide StringText, ParseValue, ParseMembers, At;
    PiecePlaces(s, i, StringText(key), StringText(t), last);
    StringValueRun(s, i + |StringText(key)| + 1, t);
    MemberRun(s, i, i + |StringText(key)| + 1 + |StringText(t)|, Member(key, String(t)), 1, got);
  }

  lemma {:induction false} LargeDigits(n: nat)
    requires n <= TWO_TO_THE_63
    ensures |DecimalText(n)| <= 19
  {
    assert TenPower(5) == 100_000;
    assert TenPower(10) == 100_000 * TenPower(5);
    assert TenPower(15) == 100_000 * TenPower(10);
    assert TenPower(19) == 10_000 * TenPower(15);
    DigitsLength(n, 10_000_000_000_000_000_000, 19);
  }

  lemma {:induction false} SecondPiece(s: seq<byte>, i: nat, got: seq<Member>)
    requires Terminated(s) && At(s, i, LargeSecond()) && i + |LargeSecond()| < |s|
    ensures ParseMembers(s, i, 1, got) == ParseMembers(s, i + |LargeSecond()|, 1, got + [Member(TIPO, String([0x63]))])
  {
    hide StringText, ParseMembers, At;
    StringPiece(s, i, TIPO, [0x63], COMMA, got);
  }

  lemma {:induction false} ThirdPiece(s: seq<byte>, i: nat, got: seq<Member>)
    requires Terminated(s) && At(s, i, LargeThird()) && i + |LargeThird()| < |s|
    ensures ParseMembers(s, i, 1, got)
         == Parsed(Object(got + [Member(DESCRICAO, String([0x78]))]), i + |LargeThird()|)
  {
    hide StringText, ParseMembers, At;
    StringPiece(s, i, DESCRICAO, [0x78], 0x7D, got);
  }

  lemma {:induction false} LargeTerminated(n: nat)
    ensures Terminated(LargeBody(n))
  {
  }

  /** The body parses to the object with these three members. */
  lemma {:induction false} LargeBodyParses(n: nat)
    requires n <= TWO_TO_THE_63
    ensures Terminated(LargeBody(n))
    ensures Parse(LargeBody(n)).Parsed? && Parse(LargeBody(n)).value == Object(LargeMembers(n))
  {
    hide LargeBody, LargeFirst, LargeSecond, LargeThird, DecimalText, ParseValue, ParseMembers, At;
    LargeTerminated(n);
    LargeDigits(n);
    LargePlaces(n);
    var s, first, second := LargeBody(n), 1 + |LargeFirst(n)|, 1 + |LargeFirst(n)| + |LargeSecond()|;
    var m0, m1, m2 := Member(VALOR, Number(n as real)), Member(TIPO, String([0x63])), Member(DESCRICAO, String([0x78]));
    FirstPiece(s, n);
    SecondPiece(s, first, [m0]);
    ThirdPiece(s, second, [m0] + [m1]);
    WsRun(s, 0, 0);
    WsRun(s, 1, 1);
    OpenObject(s, 0, 0);
    assert [m0] + [m1] + [m2] == LargeMembers(n);
  }

  lemma {:induction false} LargeLookup(n: nat)
    ensures var t := Object(LargeMembers(n));
            && Lookup(t, VALOR) == Some(Number(n as real)) && Lookup(t, TIPO) == Some(String([0x63]))
            && Lookup(t, DESCRICAO) == Some(String([0x78]))
  {
    var members := LargeMembers(n);
    assert |VALOR| == 5 && |TIPO| == 4 && |DESCRICAO| == 9;
    assert FirstNamed(members, TIPO, 0) == FirstNamed(members, TIPO, 1);
    assert FirstNamed(members, DESCRICAO, 0) == FirstNamed(members, DESCRICAO, 1) == FirstNamed(members, DESCRICAO, 2);
  }

  /**
   Every valor up to 2^63 that rounds to an integer in that range is accepted.  Among them are 2^63, and
   2^63 - 1 where it rounds to 2^63; `ValorStoredExactly` says that these are not stored as they are.
   */
  lemma {:induction false} LargeValorAccepted(n: nat, round: real -> real)
    requires n <= TWO_TO_THE_63 && 0.0 <= round(n as real) <= TWO_TO_THE_63 as real
    requires round(n as real) == round(n as real).Floor as real
    ensures WantedFrom(LargeBody(n), 0, round) == Some(Wanted(round(n as real).Floor, 0x63, [0x78]))
  {
    hide Parse, LargeBody, Body, Lookup, LargeMembers;
    LargeBodyParses(n);
    LargeBodyIsCString(n);
    LargeLookup(n);
  }

  lemma {:induction false} LargeBodyIsCString(n: nat)
    ensures Body(LargeBody(n), 0) == LargeBody(n)
  {
    hide StringText;
    J.StringNoNul(VALOR);
    J.StringNoNul(TIPO);
    J.StringNoNul(DESCRICAO);
    J.StringNoNul([0x63]);
    J.StringNoNul([0x78]);
    J.DigitsNoNul(n);
    var w := [0x7B] + LargeFirst(n) + LargeSecond() + LargeThird();
    CStringOf(w, [NUL]);
    assert LargeBody(n)[0..] == w + [NUL];
  }

  // ---------------------------------------------------------------- valores with a fraction

  /** Rounding `v` to a double moves it by at most its 2^53rd part. */
  predicate AccurateAt(round: real -> real, v: real)
  {
    Distance(round(v), v) * 9007199254740992.0 <= Distance(v, 0.0)
  }

  function Distance(a: real, b: real): real { if a < b then b - a else a - b }

  /** The `k`-th entry is the first of the name valor, and its value is this decimal. */
  predicate ValorIs(entries: seq<T.Entry>, k: nat, d: N.Decimal)
  {
    && T.ValidEntries(entries) && k < |entries| && entries[k].value == T.Numeral(d)
    && (forall j :: 0 <= j <= k ==> NamedValor(entries[j]) == (j == k))
  }

  predicate NamedValor(e: T.Entry)
  {
    T.ValidLiteral(e.key) && T.LiteralText(e.key) == [0x76, 0x61, 0x6C, 0x6F, 0x72]
  }

  lemma {:induction false} MemberMeaning(es: seq<T.Entry>, k: nat)
    requires T.ValidEntries(es) && k < |es|
    ensures T.ValidLiteral(es[k].key) && T.ValidText(es[k].value) && |T.MemberMeanings(es)| == |es|
    ensures T.MemberMeanings(es)[k] == T.MemberOf(es[k])
  {
    hide T.ValidEntry, T.ValidLiteral, T.ValidText, T.Meaning, T.LiteralText;
    assert T.ValidEntry(es[0]) && T.ValidEntry(es[k]);
    T.EntryValue(es[k]);
    T.EntryValue(es[0]);
    if k == 0 {
      MeaningsLength(es);
    } else {
      MemberMeaning(es[1..], k - 1);
    }
  }

  lemma {:induction false} MeaningsLength(es: seq<T.Entry>)
    requires T.ValidEntries(es)
    ensures |T.MemberMeanings(es)| == |es|
    decreases |es|
  {
    hide T.ValidEntry, T.ValidLiteral, T.ValidText, T.Meaning, T.LiteralText;
    if es == [] {
    } else {
      MeaningsLength(es[1..]);
    }
  }

  /** The lookup finds that decimal. */
  lemma {:induction false} ValorFound(entries: seq<T.Entry>, k: nat, d: N.Decimal)
    requires ValorIs(entries, k, d)
    ensures N.ValidDecimal(d)
    ensures FirstNamed(T.MemberMeanings(entries), VALOR, 0) == Some(Number(N.DecimalValue(d)))
  {
    hide T.ValidEntry, T.ValidLiteral, T.LiteralText, T.MemberMeanings, N.ValidDecimal, N.DecimalValue, FirstNamed;
    var members := T.MemberMeanings(entries);
    forall j | 0 <= j <= k ensures |members| == |entries| && (members[j].key == VALOR <==> j == k) {
      MemberMeaning(entries, j);
      assert NamedValor(entries[j]) == (j == k);
    }
    MemberMeaning(entries, k);
    C.FirstIsFound(members, 0, k);
  }

  /** A decimal of less than 2^53 tenths, hundredths, ... with a fraction does not round to an integer. */
  lemma {:induction false} FractionStays(d: N.Decimal, round: real -> real)
    requires N.HasFraction(d) && -9007199254740992 < N.Signed(d) < 9007199254740992
             && AccurateAt(round, N.DecimalValue(d))
    ensures var r := round(N.DecimalValue(d)); r != r.Floor as real
  {
    hide *;
    FractionIsValid(d);
    N.PlainParts(d);
    AccurateDistance(round, N.DecimalValue(d));
    NoInteger(d, N.DecimalValue(d), round(N.DecimalValue(d)));
  }

  lemma {:induction false} NoInteger(d: N.Decimal, v: real, r: real)
    requires N.HasFraction(d) && N.ValidDecimal(d) && v == N.DecimalValue(d)
    requires -9007199254740992 < N.Above(d) < 9007199254740992
    requires Distance(r, v) * 9007199254740992.0 <= Distance(v, 0.0)
    ensures r != r.Floor as real
  {
    hide *;
    N.ValueTimes(d);
    if r == r.Floor as real {
      N.NoWhole(d, r.Floor);
      Nearest(r.Floor, v, N.Below(d), N.Above(d));
      assert false;
    }
  }

  lemma {:induction false} FractionIsValid(d: N.Decimal)
    requires N.HasFraction(d)
    ensures N.ValidDecimal(d)
  {
  }

  lemma {:induction false} AccurateDistance(round: real -> real, v: real)
    requires AccurateAt(round, v)
    ensures Distance(round(v), v) * 9007199254740992.0 <= Distance(v, 0.0)
  {
  }

  lemma {:induction false} Nearest(k: int, v: real, below: nat, above: int)
    requires below > 0 && v * below as real == above as real && -9007199254740992 < above < 9007199254740992
    requires Distance(k as real, v) * 9007199254740992.0 <= Distance(v, 0.0)
    ensures k * below == above
  {
    hide *;
    var x, y := (k * below) as real, above as real;
    CastProduct(k, below);
    Scaled(k as real, v, below as real, x, y);
    Scaled(v, 0.0, below as real, y, 0.0);
    Monotone(Distance(k as real, v), Distance(v, 0.0), below as real, Distance(x, y), Distance(y, 0.0));
    BelowBound(above);
    LessThanOne(Distance(x, y), Distance(y, 0.0));
    CloseInts(k * below, above);
  }

  lemma {:induction false} BelowBound(y: int)
    requires -9007199254740992 < y < 9007199254740992
    ensures Distance(y as real, 0.0) < 9007199254740992.0
  {
  }

  lemma {:induction false} CloseInts(m: int, n: int)
    requires Distance(m as real, n as real) < 1.0
    ensures m == n
  {
  }

  lemma {:induction false} CastProduct(k: int, n: int)
    ensures k as real * n as real == (k * n) as real
  {
  }

  lemma {:induction false} LessThanOne(x: real, y: real)
    requires x * 9007199254740992.0 <= y < 9007199254740992.0
    ensures x < 1.0
  {
  }

  lemma {:induction false} Scaled(a: real, c: real, b: real, ab: real, cb: real)
    requires b > 0.0 && ab == a * b && cb == c * b
    ensures Distance(a, c) * b == Distance(ab, cb)
  {
    if a < c {
      SignOfProduct(c - a, b);
      assert (c - a) * b == cb - ab;
    } else {
      SignOfProduct(a - c, b);
      assert (a - c) * b == ab - cb;
    }
  }

  lemma {:induction false} SignOfProduct(x: real, b: real)
    requires x >= 0.0 && b > 0.0
    ensures x * b >= 0.0 && (x > 0.0 ==> x * b > 0.0)
  {
  }

  lemma {:induction false} Monotone(x: real, y: real, b: real, xb: real, yb: real)
    requires x * 9007199254740992.0 <= y && b > 0.0 && xb == x * b && yb == y * b
    ensures xb * 9007199254740992.0 <= yb
  {
    SignOfProduct(y - x * 9007199254740992.0, b);
    assert (y - x * 9007199254740992.0) * b == yb - xb * 9007199254740992.0;
  }

  /**
   A body that is an object whose first valor has a fraction is refused, wherever it stands and whatever else
   there is.
   */
  lemma {:induction false} FractionRefused(buffer: seq<byte>, loc: nat, doc: T.Document, k: nat, d: N.Decimal,
      round: real -> real)
    requires loc <= |buffer| && T.ValidDocument(doc) && T.RenderDocument(doc) < Body(buffer, loc)
    requires doc.text.Braced? && ValorIs(doc.text.entries, k, d)
    requires N.HasFraction(d) && -9007199254740992 < N.Signed(d) < 9007199254740992
             && AccurateAt(round, N.DecimalValue(d))
    ensures WantedFrom(buffer, loc, round) == None
  {
    hide Parse, Body, T.RenderDocument, T.Depth, N.DecimalValue, N.HasFraction, N.Signed, FirstNamed, ValorIs,
      T.MemberMeanings, AccurateAt;
    T.DocumentParses(Body(buffer, loc), doc);
    ValorFound(doc.text.entries, k, d);
    FractionStays(d, round);
  }
}
