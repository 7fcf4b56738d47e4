/** What minifying does to any string twice, and to printed text once. */
module JsonMinifyTheorems {
  import opened Bytes
  import opened JsonString
  import opened JsonTree
  import opened JsonGrammar
  import opened JsonRoundTrip
  import opened JsonMinify

  // ---------------------------------------------------------------- twice

  /** The state of the scanner over what another scanner in state `q` has kept. */
  function Again(q: State): State
  {
    if q == Text || q == Backslash then q else Outside
  }

  lemma {:induction false} RunAgain(s: seq<byte>)
    ensures Run(START, Run(START, s).kept) == Scan(Again(Run(START, s).state), Run(START, s).kept)
    decreases s
  {
    if s == [] {
    } else {
      var n := |s| - 1;
      RunAgain(s[..n]);
      var p, b := Run(START, s[..n]), s[n];
      assert (p.kept + [b])[..|p.kept|] == p.kept;
      assert Run(START, p.kept + [b]) == Step(Run(START, p.kept), b);
    }
  }

  /** Minifying is idempotent, on every string. */
  lemma {:induction false} MinifiedTwice(s: seq<byte>)
    ensures Minified(Minified(s)) == Minified(s)
  {
    RunAgain(s);
  }

  // ---------------------------------------------------------------- runs over uniform text

  predicate IsPlain(b: byte) { !IsSpace(b) && b != SLASH && b != QUOTE }

  lemma {:induction false} PlainKept(k: seq<byte>, w: seq<byte>)
    requires forall i :: 0 <= i < |w| ==> IsPlain(w[i])
    ensures Run(Scan(Outside, k), w) == Scan(Outside, k + w)
    decreases w
  {
    if w == [] {
      assert k + w == k;
    } else {
      var n := |w| - 1;
      PlainKept(k, w[..n]);
      assert k + w == k + w[..n] + [w[n]];
    }
  }

  lemma {:induction false} SpaceDropped(k: seq<byte>, w: seq<byte>)
    requires forall i :: 0 <= i < |w| ==> IsSpace(w[i])
    ensures Run(Scan(Outside, k), w) == Scan(Outside, k)
    decreases w
  {
    if w == [] {
    } else {
      SpaceDropped(k, w[..|w| - 1]);
    }
  }

  lemma {:induction false} TextKept(q: State, k: seq<byte>, w: seq<byte>)
    requires q == Text || q == Backslash
    requires w != [] && w[0] != BACKSLASH && (q == Text ==> w[0] != QUOTE)
    requires forall i :: 1 <= i < |w| ==> w[i] != QUOTE && w[i] != BACKSLASH
    ensures Run(Scan(q, k), w) == Scan(Text, k + w)
    decreases w
  {
    var n := |w| - 1;
    assert k + w == k + w[..n] + [w[n]];
    if n == 0 {
      assert w[..n] == [];
      assert k + [] == k;
    } else {
      TextKept(q, k, w[..n]);
    }
  }

  lemma {:induction false} KeptGrows(p: Scan, s: seq<byte>)
    ensures p.kept <= Run(p, s).kept
    decreases s
  {
    if s == [] {
    } else {
      KeptGrows(p, s[..|s| - 1]);
    }
  }

  // ---------------------------------------------------------------- string literals

  predicate EndsEscaped(t: seq<byte>)
  {
    t != [] && t[|t| - 1] == BACKSLASH
  }

  lemma {:induction false} EscapeByteKept(q: State, k: seq<byte>, b: byte)
    requires q == Text || q == Backslash
    ensures Run(Scan(q, k), EscapeByte(b)) == Scan(if b == BACKSLASH then Backslash else Text, k + EscapeByte(b))
  {
    hide Run;
    var e := EscapeByte(b);
    if !NeedsEscape(b) {
      TextKept(q, k, e);
    } else {
      assert e == [BACKSLASH] + e[1..];
      RunConcat(Scan(q, k), [BACKSLASH], e[1..]);
      OneStep(Scan(q, k), BACKSLASH);
      var k1 := k + [BACKSLASH];
      assert k + e == k1 + e[1..];
      if b == BACKSLASH {
        OneStep(Scan(Backslash, k1), BACKSLASH);
        assert e[1..] == [BACKSLASH];
      } else {
        TextKept(Backslash, k1, e[1..]);
      }
    }
  }

  lemma {:induction false} OneStep(p: Scan, b: byte)
    ensures Run(p, [b]) == Step(p, b)
  {
    assert [b][..0] == [];
  }

  lemma {:induction false} EscapeTextKept(q: State, k: seq<byte>, t: seq<byte>, i: nat)
    requires i <= |t| && (q == Text || q == Backslash) && (q == Backslash <==> i > 0 && t[i - 1] == BACKSLASH)
    ensures Run(Scan(q, k), EscapeText(t, i)) == Scan(if EndsEscaped(t) then Backslash else Text, k + EscapeText(t, i))
    decreases |t| - i
  {
    hide EscapeByte;
    if i == |t| {
      assert k + [] == k;
    } else {
      hide Run;
      var e, rest := EscapeByte(t[i]), EscapeText(t, i + 1);
      RunConcat(Scan(q, k), e, rest);
      EscapeByteKept(q, k, t[i]);
      EscapeTextKept(if t[i] == BACKSLASH then Backslash else Text, k + e, t, i + 1);
      assert k + (e + rest) == k + e + rest;
    }
  }

  /** A literal is kept whole; the scanner misses its end if the string ends in a backslash. */
  lemma {:induction false} StringKept(k: seq<byte>, t: seq<byte>)
    ensures Run(Scan(Outside, k), StringText(t)) == Scan(if EndsEscaped(t) then Text else Outside, k + StringText(t))
  {
    hide Run, EscapeText;
    var inner := EscapeText(t, 0);
    RunConcat(Scan(Outside, k), [QUOTE] + inner, [QUOTE]);
    RunConcat(Scan(Outside, k), [QUOTE], inner);
    OneStep(Scan(Outside, k), QUOTE);
    EscapeTextKept(Text, k + [QUOTE], t, 0);
    OneStep(Scan(if EndsEscaped(t) then Backslash else Text, k + [QUOTE] + inner), QUOTE);
    assert k + [QUOTE] + inner + [QUOTE] == k + ([QUOTE] + inner + [QUOTE]);
  }

  // ---------------------------------------------------------------- trees

  /** No string and no key ends in a backslash. */
  predicate Clean(t: Json)
  {
    match t
    case String(text) => !EndsEscaped(text)
    case Array(items) => forall k :: 0 <= k < |items| ==> Clean(items[k])
    case Object(members) => forall k :: 0 <= k < |members| ==> CleanMember(members[k])
    case _ => true
  }

  predicate CleanMember(m: Member) { !EndsEscaped(m.key) && Clean(m.value) }

  /** A string that ends in a backslash may only stand where nothing but closing brackets follow. */
  predicate MinifiesWell(t: Json)
  {
    match t
    case String(_) => true
    case Array(items) =>
      items == [] || (MinifiesWell(items[|items| - 1]) && forall k :: 0 <= k < |items| - 1 ==> Clean(items[k]))
    case _ => Clean(t)
  }

  predicate CleanItems(items: seq<Json>, k: nat, end: nat)
    requires end <= |items|
  {
    forall i :: k <= i < end ==> Clean(items[i])
  }

  predicate CleanMembers(members: seq<Member>, k: nat)
  {
    forall i :: k <= i < |members| ==> CleanMember(members[i])
  }

  lemma {:induction false} CleanMinifiesWell(t: Json)
    requires Clean(t)
    ensures MinifiesWell(t)
  {
    if t.Array? && t.items != [] {
      CleanMinifiesWell(t.items[|t.items| - 1]);
    }
  }

  /** The strings differ at some place that both have. */
  ghost predicate Clash(a: seq<byte>, b: seq<byte>)
  {
    exists j :: 0 <= j < |a| && j < |b| && a[j] != b[j]
  }

  lemma {:induction false} ClashGrows(a: seq<byte>, b: seq<byte>, more: seq<byte>, c: seq<byte>)
    requires Clash(a, b) && a <= more
    ensures Clash(more, b + c)
  {
    var j :| 0 <= j < |a| && j < |b| && a[j] != b[j];
    assert more[j] != (b + c)[j];
  }

  /** What a run over the formatted text gives, against the unformatted text. */
  ghost predicate Result(p: Scan, clean: bool, well: bool, unformatted: seq<byte>)
  {
    if clean then p == Scan(Outside, unformatted)
    else if well then p == Scan(Text, unformatted)
    else Clash(p.kept, unformatted)
  }

  /** Once it is lost in a string, the scanner keeps white space that the unformatted text does not have. */
  lemma {:induction false} SpaceKept(k: seq<byte>, pre: seq<byte>, space: byte, rest: seq<byte>, other: seq<byte>)
    requires IsSpace(space) && forall i :: 0 <= i < |pre| ==> pre[i] != QUOTE && pre[i] != BACKSLASH
    requires other != [] && !IsSpace(other[0])
    ensures Clash(Run(Scan(Text, k), pre + [space] + rest).kept, k + pre + other)
  {
    TextKept(Text, k, pre + [space]);
    RunConcat(Scan(Text, k), pre + [space], rest);
    var p := Scan(Text, k + (pre + [space]));
    KeptGrows(p, rest);
    var j := |k| + |pre|;
    assert p.kept[j] == space && (k + pre + other)[j] == other[0];
    assert Run(p, rest).kept[j] == space;
  }

  // ---------------------------------------------------------------- lists of items

  predicate WellItems(items: seq<Json>, k: nat)
    requires k <= |items|
  {
    k == |items| || (MinifiesWell(items[|items| - 1]) && CleanItems(items, k, |items| - 1))
  }

  lemma {:induction false} FirstIsNoSpace(t: Json, d: nat, rest: seq<byte>)
    requires ValidTree(t)
    ensures ValueText(t, d, false) + rest != [] && !IsSpace((ValueText(t, d, false) + rest)[0])
  {
    ValueStart(t, d, false);
  }

  lemma {:induction false} ItemsFirst(items: seq<Json>, k: nat, d: nat)
    requires ValidItems(items) && k < |items|
    ensures ItemsText(items, k, d, false) != [] && !IsSpace(ItemsText(items, k, d, false)[0])
  {
    hide ValueText;
    var v, sep, rest := ValueText(items[k], d, false), ItemSep(k + 1 < |items|, false),
      ItemsText(items, k + 1, d, false);
    FirstIsNoSpace(items[k], d, sep + rest);
    assert v + sep + rest == v + (sep + rest);
  }

  lemma {:induction false} ItemSepKept(k: seq<byte>, more: bool)
    ensures Run(Scan(Outside, k), ItemSep(more, true)) == Scan(Outside, k + ItemSep(more, false))
  {
    if more {
      assert ItemSep(true, true) == [COMMA] + [SP];
      RunConcat(Scan(Outside, k), [COMMA], [SP]);
      OneStep(Scan(Outside, k), COMMA);
      OneStep(Scan(Outside, k + [COMMA]), SP);
    } else {
      assert k + [] == k;
    }
  }

  /** The run over one item, its separator and the rest, when the run over the item is known. */
  lemma {:induction false} ItemKept(k: seq<byte>, items: seq<Json>, i: nat, d: nat)
    requires ValidItems(items) && i < |items|
    requires Result(Run(Scan(Outside, k), ValueText(items[i], d, true)), Clean(items[i]), MinifiesWell(items[i]),
             k + ValueText(items[i], d, false))
    requires i + 1 < |items| && Clean(items[i]) ==>
               Result(Run(Scan(Outside, k + ValueText(items[i], d, false) + [COMMA]), ItemsText(items, i + 1, d, true)),
                      CleanItems(items, i + 1, |items|), WellItems(items, i + 1),
                      k + ValueText(items[i], d, false) + [COMMA] + ItemsText(items, i + 1, d, false))
    ensures Result(Run(Scan(Outside, k), ItemsText(items, i, d, true)), CleanItems(items, i, |items|),
            WellItems(items, i),
                   k + ItemsText(items, i, d, false))
  {
    hide ValueText, Run, ItemsText, Clean, MinifiesWell;
    var more, t := i + 1 < |items|, items[i];
    var p1 := Run(Scan(Outside, k), ValueText(t, d, true));
    var v, sep, rest := ValueText(t, d, true), ItemSep(more, true), ItemsText(items, i + 1, d, true);
    var v', sep', rest' := ValueText(t, d, false), ItemSep(more, false), ItemsText(items, i + 1, d, false);
    ItemsUnfold(items, i, d, true);
    ItemsUnfold(items, i, d, false);
    RunConcat(Scan(Outside, k), v + sep, rest);
    RunConcat(Scan(Outside, k), v, sep);
    RunConcat(p1, sep, rest);
    assert k + (v' + sep' + rest') == k + v' + sep' + rest';
    if !MinifiesWell(t) {
      assert !Clean(t) by { if Clean(t) { CleanMinifiesWell(t); } }
      KeptGrows(p1, sep + rest);
      ClashGrows(p1.kept, k + v', Run(p1, sep + rest).kept, sep' + rest');
      assert k + v' + sep' + rest' == k + v' + (sep' + rest');
    } else if !more {
      NoItems(items, d, true);
      NoItems(items, d, false);
      NoRun(p1);
      assert sep + rest == [] && k + v' + sep' + rest' == k + v';
    } else if Clean(t) {
      ItemSepKept(k + v', true);
    } else {
      ItemsFirst(items, i + 1, d);
      SpaceKept(k + v', [COMMA], SP, rest, rest');
      assert [COMMA] + [SP] + rest == sep + rest;
    }
  }

  lemma {:induction false} NoRun(p: Scan)
    ensures Run(p, []) == p
  {
  }

  lemma {:induction false} ItemsUnfold(items: seq<Json>, k: nat, d: nat, format: bool)
    requires ValidItems(items) && k < |items|
    ensures ItemsText(items, k, d, format)
         == ValueText(items[k], d, format) + ItemSep(k + 1 < |items|, format) + ItemsText(items, k + 1, d, format)
  {
  }

  lemma {:induction false} ItemsKept(k: seq<byte>, items: seq<Json>, i: nat, d: nat)
    requires ValidItems(items) && i <= |items|
    ensures Result(Run(Scan(Outside, k), ItemsText(items, i, d, true)), CleanItems(items, i, |items|),
            WellItems(items, i),
                   k + ItemsText(items, i, d, false))
    decreases items, |items| - i
  {
    hide ValueText, Run;
    if i == |items| {
      NoRun(Scan(Outside, k));
      assert k + [] == k;
    } else {
      ValueKept(k, items[i], d);
      ItemsKept(k + ValueText(items[i], d, false) + [COMMA], items, i + 1, d);
      ItemKept(k, items, i, d);
    }
  }

  lemma {:induction false} ArrayKept(k: seq<byte>, t: Json, d: nat)
    requires ValidTree(t) && t.Array?
    ensures Result(Run(Scan(Outside, k), ValueText(t, d, true)), Clean(t), MinifiesWell(t), k + ValueText(t, d, false))
    decreases t, 0
  {
    hide Run, ItemsText, Clean, MinifiesWell;
    var text, text' := ItemsText(t.items, 0, d + 1, true), ItemsText(t.items, 0, d + 1, false);
    var k1 := k + [0x5B];
    RunConcat(Scan(Outside, k), [0x5B] + text, [0x5D]);
    RunConcat(Scan(Outside, k), [0x5B], text);
    OneStep(Scan(Outside, k), 0x5B);
    ItemsKept(k1, t.items, 0, d + 1);
    var p := Run(Scan(Outside, k1), text);
    OneStep(p, 0x5D);
    assert k1 + text' + [0x5D] == k + ([0x5B] + text' + [0x5D]);
    WellArray(t);
    if !WellItems(t.items, 0) {
      KeptGrows(p, [0x5D]);
      WellOfClean(t.items);
      ClashGrows(p.kept, k1 + text', Run(p, [0x5D]).kept, [0x5D]);
    }
  }

  lemma {:induction false} WellArray(t: Json)
    requires t.Array?
    ensures Clean(t) <==> CleanItems(t.items, 0, |t.items|)
    ensures MinifiesWell(t) <==> WellItems(t.items, 0)
  {
  }

  lemma {:induction false} WellOfClean(items: seq<Json>)
    ensures CleanItems(items, 0, |items|) ==> WellItems(items, 0)
  {
    if items != [] && CleanItems(items, 0, |items|) {
      CleanMinifiesWell(items[|items| - 1]);
    }
  }

  // ---------------------------------------------------------------- lists of members

  lemma {:induction false} TabsDropped(k: seq<byte>, d: nat)
    ensures Run(Scan(Outside, k), Tabs(d)) == Scan(Outside, k)
  {
    SpaceDropped(k, Tabs(d));
  }

  lemma {:induction false} KeySepKept(k: seq<byte>)
    ensures Run(Scan(Outside, k), KeySep(true)) == Scan(Outside, k + KeySep(false))
  {
    assert KeySep(true) == [COLON] + [HT];
    RunConcat(Scan(Outside, k), [COLON], [HT]);
    OneStep(Scan(Outside, k), COLON);
    OneStep(Scan(Outside, k + [COLON]), HT);
  }

  lemma {:induction false} MemberSepKept(k: seq<byte>, more: bool)
    ensures Run(Scan(Outside, k), MemberSep(more, true)) == Scan(Outside, k + MemberSep(more, false))
  {
    var comma := if more then [COMMA] else [];
    assert MemberSep(more, true) == comma + [LF] && MemberSep(more, false) == comma;
    RunConcat(Scan(Outside, k), comma, [LF]);
    PlainKept(k, comma);
    OneStep(Scan(Outside, k + comma), LF);
  }

  lemma {:induction false} CloseKept(k: seq<byte>, d: nat)
    ensures Run(Scan(Outside, k), ObjectClose(d, true)) == Scan(Outside, k + ObjectClose(d, false))
  {
    hide Run;
    RunConcat(Scan(Outside, k), Tabs(d), [0x7D]);
    TabsDropped(k, d);
    OneStep(Scan(Outside, k), 0x7D);
  }

  /** The run over a key: without harm, or lost in it and keeping the tab. */
  lemma {:induction false} KeyKept(k: seq<byte>, key: seq<byte>, d: nat, rest: seq<byte>, other: seq<byte>)
    requires other != [] && !IsSpace(other[0])
    ensures if EndsEscaped(key)
            then Clash(Run(Scan(Outside, k), KeyText(key, d, true) + rest).kept, k + KeyText(key, d, false) + other)
            else Run(Scan(Outside, k), KeyText(key, d, true)) == Scan(Outside, k + KeyText(key, d, false))
  {
    hide Run, StringText;
    var name, k1 := StringText(key), k + StringText(key);
    var before := Tabs(d) + name;
    RunConcat(Scan(Outside, k), Tabs(d), name);
    TabsDropped(k, d);
    StringKept(k, key);
    assert KeyText(key, d, true) == before + KeySep(true);
    assert k + KeyText(key, d, false) == k1 + [COLON];
    if EndsEscaped(key) {
      assert KeyText(key, d, true) + rest == before + ([COLON] + [HT] + rest);
      RunConcat(Scan(Outside, k), before, [COLON] + [HT] + rest);
      SpaceKept(k1, [COLON], HT, rest, other);
    } else {
      RunConcat(Scan(Outside, k), before, KeySep(true));
      KeySepKept(k1);
    }
  }

  /** The run over a value and what separates it from `other`: without harm, or not. */
  lemma {:induction false} MemberValueKept(k: seq<byte>, t: Json, d: nat, more: bool, rest: seq<byte>, other: seq<byte>)
    requires ValidTree(t) && other != [] && !IsSpace(other[0])
    requires Result(Run(Scan(Outside, k), ValueText(t, d, true)), Clean(t), MinifiesWell(t), k + ValueText(t, d, false))
    ensures var v, v' := ValueText(t, d, true) + MemberSep(more, true), ValueText(t, d, false) + MemberSep(more, false);
            if Clean(t) then Run(Scan(Outside, k), v) == Scan(Outside, k + v')
            else Clash(Run(Scan(Outside, k), v + rest).kept, k + v' + other)
  {
    hide Run, ValueText, Clean, MinifiesWell;
    var u, u', sep, sep' := ValueText(t, d, true), ValueText(t, d, false), MemberSep(more, true),
      MemberSep(more, false);
    var p := Run(Scan(Outside, k), u);
    if Clean(t) {
      RunConcat(Scan(Outside, k), u, sep);
      MemberSepKept(k + u', more);
      assert k + u' + sep' == k + (u' + sep');
    } else {
      assert u + sep + rest == u + (sep + rest) && k + u' + sep' + other == k + (u' + sep') + other;
      RunConcat(Scan(Outside, k), u, sep + rest);
      if MinifiesWell(t) {
        var comma := if more then [COMMA] else [];
        assert sep == comma + [LF] && sep' == comma;
        SpaceKept(k + u', comma, LF, rest, other);
      } else {
        KeptGrows(p, sep + rest);
        ClashGrows(p.kept, k + u', Run(p, sep + rest).kept, sep' + other);
        assert k + u' + (sep' + other) == k + u' + sep' + other;
      }
    }
  }

  lemma {:induction false} MembersUnfold(members: seq<Member>, k: nat, d: nat, format: bool)
    requires ValidMembers(members) && k < |members|
    ensures MembersText(members, k, d, format)
         == KeyText(members[k].key, d, format)
            + (ValueText(members[k].value, d, format) + MemberSep(k + 1 < |members|, format))
            + MembersText(members, k + 1, d, format)
  {
  }

  /** The text of the members from `k` on and of the brace behind them. */
  function RestText(members: seq<Member>, k: nat, d: nat, format: bool): seq<byte>
    requires ValidMembers(members) && k <= |members|
  {
    MembersText(members, k, d + 1, format) + ObjectClose(d, format)
  }

  lemma {:induction false} RestFirst(members: seq<Member>, k: nat, d: nat)
    requires ValidMembers(members) && k <= |members|
    ensures RestText(members, k, d, false) != [] && !IsSpace(RestText(members, k, d, false)[0])
  {
    hide ValueText, EscapeText;
    if k < |members| {
      MembersUnfold(members, k, d + 1, false);
      assert KeyText(members[k].key, d + 1, false)[0] == QUOTE;
    }
  }

  lemma {:induction false} RestUnfold(members: seq<Member>, i: nat, d: nat, format: bool)
    requires ValidMembers(members) && i < |members|
    ensures var key, v := KeyText(members[i].key, d + 1, format), ValueText(members[i].value, d + 1, format);
            var sep, rest := MemberSep(i + 1 < |members|, format), RestText(members, i + 1, d, format);
            RestText(members, i, d, format) == key + (v + sep + rest)
  {
    hide ValueText, KeyText, MemberSep, ObjectClose, MembersText;
    MembersUnfold(members, i, d + 1, format);
    var key, v := KeyText(members[i].key, d + 1, format), ValueText(members[i].value, d + 1, format);
    var sep, rest := MemberSep(i + 1 < |members|, format), MembersText(members, i + 1, d + 1, format);
    assert key + (v + sep) + rest + ObjectClose(d, format) == key + (v + sep + (rest + ObjectClose(d, format)));
  }

  /** The run over one member and the rest, when the runs over the value and over the rest are known. */
  lemma {:induction false} MemberKept(k: seq<byte>, members: seq<Member>, i: nat, d: nat)
    requires ValidMembers(members) && i < |members|
    requires var m, k1 := members[i], k + KeyText(members[i].key, d + 1, false);
             Result(Run(Scan(Outside, k1), ValueText(m.value, d + 1, true)), Clean(m.value), MinifiesWell(m.value),
                    k1 + ValueText(m.value, d + 1, false))
    requires var m, k1 := members[i], k + KeyText(members[i].key, d + 1, false);
             var k2 := k1 + (ValueText(m.value, d + 1, false) + MemberSep(i + 1 < |members|, false));
             Result(Run(Scan(Outside, k2), RestText(members, i + 1, d, true)),
                    CleanMembers(members, i + 1), CleanMembers(members, i + 1), k2 + RestText(members, i + 1, d, false))
    ensures Result(Run(Scan(Outside, k), RestText(members, i, d, true)), CleanMembers(members, i),
            CleanMembers(members, i),
                   k + RestText(members, i, d, false))
  {
    hide ValueText, KeyText, MemberSep, Run, RestText, Clean, MinifiesWell;
    var m, more := members[i], i + 1 < |members|;
    var key, key' := KeyText(m.key, d + 1, true), KeyText(m.key, d + 1, false);
    var v, v' := ValueText(m.value, d + 1, true) + MemberSep(more, true),
      ValueText(m.value, d + 1, false) + MemberSep(more, false);
    var rest, rest' := RestText(members, i + 1, d, true), RestText(members, i + 1, d, false);
    RestUnfold(members, i, d, true);
    RestUnfold(members, i, d, false);
    RestFirst(members, i + 1, d);
    MemberFirst(m.value, d + 1, more, rest');
    KeyKept(k, m.key, d + 1, v + rest, v' + rest');
    RunConcat(Scan(Outside, k), key, v + rest);
    assert k + (key' + (v' + rest')) == k + key' + (v' + rest') == k + key' + v' + rest';
    MemberValueKept(k + key', m.value, d + 1, more, rest, rest');
    RunConcat(Scan(Outside, k + key'), v, rest);
  }

  lemma {:induction false} MemberFirst(t: Json, d: nat, more: bool, rest: seq<byte>)
    requires ValidTree(t)
    ensures var other := ValueText(t, d, false) + MemberSep(more, false) + rest; other != [] && !IsSpace(other[0])
  {
    hide ValueText;
    FirstIsNoSpace(t, d, MemberSep(more, false) + rest);
    assert ValueText(t, d, false) + MemberSep(more, false) + rest
           == ValueText(t, d, false) + (MemberSep(more, false) + rest);
  }

  lemma {:induction false} MembersKept(k: seq<byte>, members: seq<Member>, i: nat, d: nat)
    requires ValidMembers(members) && i <= |members|
    ensures Result(Run(Scan(Outside, k), RestText(members, i, d, true)), CleanMembers(members, i),
            CleanMembers(members, i),
                   k + RestText(members, i, d, false))
    decreases members, |members| - i
  {
    hide ValueText, KeyText, MemberSep, ObjectClose, Run;
    if i == |members| {
      CloseKept(k, d);
      assert [] + ObjectClose(d, true) == ObjectClose(d, true) && [] + ObjectClose(d, false) == ObjectClose(d, false);
    } else {
      var k1 := k + KeyText(members[i].key, d + 1, false);
      ValueKept(k1, members[i].value, d + 1);
      MembersKept(k1 + (ValueText(members[i].value, d + 1, false) + MemberSep(i + 1 < |members|, false)), members,
        i + 1, d);
      MemberKept(k, members, i, d);
    }
  }

  lemma {:induction false} ObjectKept(k: seq<byte>, t: Json, d: nat)
    requires ValidTree(t) && t.Object?
    ensures Result(Run(Scan(Outside, k), ValueText(t, d, true)), Clean(t), MinifiesWell(t), k + ValueText(t, d, false))
    decreases t, 0
  {
    hide Run, MembersText, ObjectClose;
    var rest, rest' := RestText(t.members, 0, d, true), RestText(t.members, 0, d, false);
    assert ValueText(t, d, true) == [0x7B] + ([LF] + rest);
    assert ValueText(t, d, false) == [0x7B] + rest' && k + ([0x7B] + rest') == k + [0x7B] + rest';
    RunConcat(Scan(Outside, k), [0x7B], [LF] + rest);
    RunConcat(Scan(Outside, k + [0x7B]), [LF], rest);
    OneStep(Scan(Outside, k), 0x7B);
    OneStep(Scan(Outside, k + [0x7B]), LF);
    MembersKept(k + [0x7B], t.members, 0, d);
  }

  // ---------------------------------------------------------------- all values

  lemma {:induction false} LeafKept(k: seq<byte>, t: Json, d: nat)
    requires ValidTree(t) && !t.Array? && !t.Object?
    ensures Result(Run(Scan(Outside, k), ValueText(t, d, true)), Clean(t), MinifiesWell(t), k + ValueText(t, d, false))
  {
    hide Run, StringText;
    if t.String? {
      StringKept(k, t.text);
    } else {
      if t.Number? {
        DigitsBytes(if t.value.Floor < 0 then -t.value.Floor else t.value.Floor);
      }
      PlainKept(k, ValueText(t, d, true));
    }
  }

  lemma {:induction false} ValueKept(k: seq<byte>, t: Json, d: nat)
    requires ValidTree(t)
    ensures Result(Run(Scan(Outside, k), ValueText(t, d, true)), Clean(t), MinifiesWell(t), k + ValueText(t, d, false))
    decreases t, 1
  {
    hide *;
    if t.Array? {
      ArrayKept(k, t, d);
    } else if t.Object? {
      ObjectKept(k, t, d);
    } else {
      LeafKept(k, t, d);
    }
  }

  /**
   Minifying the formatted text of a tree gives its unformatted text if and only if a string that ends
   in a backslash stands nowhere but where only closing brackets follow it.
   */
  lemma {:induction false} FormattedMinifies(t: Json)
    requires ValidTree(t)
    ensures Minified(ValueText(t, 0, true)) == ValueText(t, 0, false) <==> MinifiesWell(t)
  {
    hide ValueText, Run, Clean, MinifiesWell;
    ValueKept([], t, 0);
    assert [] + ValueText(t, 0, false) == ValueText(t, 0, false);
    if Clean(t) {
      CleanMinifiesWell(t);
    }
  }

  /** The array of a backslash and null: the space behind the comma is kept, as if it stood in the string. */
  lemma {:induction false} BackslashKeepsSpace()
    ensures var t := Array([String([BACKSLASH]), Null]);
            ValidTree(t) && Minified(ValueText(t, 0, true)) != ValueText(t, 0, false)
  {
    hide ValueText, Minified;
    var items := [String([BACKSLASH]), Null];
    assert ValidTree(items[0]) && ValidTree(items[1]) && !Clean(items[0]);
    FormattedMinifies(Array(items));
  }

  /** Such minified text still parses to the tree. */
  lemma {:induction false} MinifiedParses(t: Json)
    requires ValidTree(t) && MinifiesWell(t) && Nesting(t) <= NESTING_LIMIT
    ensures Parse(Minified(ValueText(t, 0, true)) + [NUL]) == Parsed(t, |ValueText(t, 0, false)|)
  {
    hide ValueText, Parse, Minified;
    FormattedMinifies(t);
    RoundTrip(t, false, [NUL]);
  }

  // ---------------------------------------------------------------- comments and white space

  /** The scanner is outside strings and comments behind this text. */
  predicate EndsOutside(p: seq<byte>) { Run(START, p).state == Outside }

  /** If a piece leaves the scanner where it was, putting it in changes nothing that is kept. */
  lemma {:induction false} PutIn(p: seq<byte>, piece: seq<byte>, q: seq<byte>)
    requires Run(Run(START, p), piece) == Run(START, p)
    ensures Minified(p + piece + q) == Minified(p + q)
  {
    hide Run;
    RunConcat(START, p, piece);
    RunConcat(START, p + piece, q);
    RunConcat(START, p, q);
  }

  lemma {:induction false} LineSkipped(k: seq<byte>, w: seq<byte>)
    requires forall i :: 0 <= i < |w| ==> w[i] != 10
    ensures Run(Scan(Line, k), w) == Scan(Line, k)
    decreases |w|
  {
    if w == [] {
    } else {
      LineSkipped(k, w[..|w| - 1]);
    }
  }

  /** A line comment that ends at its line end, put in outside strings, changes nothing that is kept. */
  lemma {:induction false} LineCommentDropped(p: seq<byte>, w: seq<byte>, q: seq<byte>)
    requires EndsOutside(p) && forall i :: 0 <= i < |w| ==> w[i] != 10
    ensures Minified(p + ([0x2F, 0x2F] + w + [10]) + q) == Minified(p + q)
  {
    var k := Run(START, p).kept;
    TwoSteps(Scan(Outside, k), 0x2F, 0x2F);
    OneStep(Scan(Line, k), 10);
    LineSkipped(k, w);
    hide Run, Step;
    RunConcat(Scan(Outside, k), [0x2F, 0x2F], w);
    RunConcat(Scan(Outside, k), [0x2F, 0x2F] + w, [10]);
    PutIn(p, [0x2F, 0x2F] + w + [10], q);
  }

  lemma {:induction false} TwoSteps(p: Scan, a: byte, b: byte)
    ensures Run(p, [a, b]) == Step(Step(p, a), b)
  {
    assert [a, b] == [a] + [b];
    RunConcat(p, [a], [b]);
    OneStep(p, a);
    OneStep(Step(p, a), b);
  }

  /** Nothing in it closes a block comment. */
  predicate Unclosed(w: seq<byte>)
  {
    forall i :: 0 <= i < |w| - 1 ==> !(w[i] == 0x2A && w[i + 1] == 0x2F)
  }

  lemma {:induction false} BlockSkipped(k: seq<byte>, w: seq<byte>)
    requires Unclosed(w)
    ensures Run(Scan(Block, k), w) == Scan(if w != [] && w[|w| - 1] == 0x2A then Star else Block, k)
    decreases |w|
  {
    if w == [] {
    } else {
      var n := |w| - 1;
      assert Unclosed(w[..n]);
      assert n > 0 ==> w[..n][n - 1] == w[n - 1] && !(w[n - 1] == 0x2A && w[n - 1 + 1] == 0x2F);
      BlockSkipped(k, w[..n]);
    }
  }

  /** A closed block comment, put in outside strings, changes nothing that is kept. */
  lemma {:induction false} BlockCommentDropped(p: seq<byte>, w: seq<byte>, q: seq<byte>)
    requires EndsOutside(p) && Unclosed(w)
    ensures Minified(p + ([0x2F, 0x2A] + w + [0x2A, 0x2F]) + q) == Minified(p + q)
  {
    var k := Run(START, p).kept;
    TwoSteps(Scan(Outside, k), 0x2F, 0x2A);
    TwoSteps(Scan(Block, k), 0x2A, 0x2F);
    TwoSteps(Scan(Star, k), 0x2A, 0x2F);
    BlockSkipped(k, w);
    hide Run, Step;
    RunConcat(Scan(Outside, k), [0x2F, 0x2A], w);
    RunConcat(Scan(Outside, k), [0x2F, 0x2A] + w, [0x2A, 0x2F]);
    PutIn(p, [0x2F, 0x2A] + w + [0x2A, 0x2F], q);
  }

  /** A space, a tab or a line end, put in outside strings, changes nothing that is kept. */
  lemma {:induction false} BlankDropped(p: seq<byte>, b: byte, q: seq<byte>)
    requires EndsOutside(p) && (b == 32 || b == 9 || b == 10 || b == 13)
    ensures Minified(p + [b] + q) == Minified(p + q)
  {
    OneStep(Run(START, p), b);
    hide Run;
    PutIn(p, [b], q);
  }
}
