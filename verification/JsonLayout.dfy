/**
 How printed text is laid out.  Printed strings escape every byte below 0x20 (section 7 of RFC 8259);
 formatted text has line ends and tabs only where a scanner that counts brackets expects them.
 */
module JsonLayout {
  import opened Bytes
  import opened JsonString
  import opened JsonTree

  // ---------------------------------------------------------------- the scanner

  /**
   Outside strings or inside, with this many brackets open; behind a backslash; behind a comma, where one space
   or a line end is due; behind a colon, where one tab is due; at the start of a line, behind this many tabs.
   */
  datatype Layout =
    | Outside(open: nat)
    | Inside(open: nat)
    | Escaped(open: nat)
    | BehindComma(open: nat)
    | BehindColon(open: nat)
    | LineStart(open: nat, tabs: nat)
    | Wrong

  /**
   A line starts with one tab for each bracket that is open, and then a key; or with one less, and then a
   closing brace.  Outside strings there is no other byte up to SP, and in strings none below it.
   */
  function Step(p: Layout, b: byte): Layout
  {
    match p
    case Outside(n) =>
      if b == 0x22 then Inside(n)
      else if b == 0x5B || b == 0x7B then Outside(n + 1)
      else if b == 0x5D || b == 0x7D then (if n > 0 then Outside(n - 1) else Wrong)
      else if b == 0x3A then BehindColon(n)
      else if b == 0x2C then BehindComma(n)
      else if b == LF then LineStart(n, 0)
      else if b <= 0x20 then Wrong else p
    case Inside(n) =>
      if b == 0x22 then Outside(n) else if b == 0x5C then Escaped(n) else if b < 0x20 then Wrong else p
    case Escaped(n) => if b < 0x20 then Wrong else Inside(n)
    case BehindComma(n) => if b == SP then Outside(n) else if b == LF then LineStart(n, 0) else Wrong
    case BehindColon(n) => if b == HT then Outside(n) else Wrong
    case LineStart(n, tabs) =>
      if b == HT then LineStart(n, tabs + 1)
      else if b == 0x22 && tabs == n then Inside(n)
      else if b == 0x7D && tabs + 1 == n then Outside(tabs)
      else Wrong
    case Wrong => Wrong
  }

  function Scan(p: Layout, s: seq<byte>): Layout
  {
    if s == [] then p else Step(Scan(p, s[..|s| - 1]), s[|s| - 1])
  }

  lemma {:induction false} ScanConcat(p: Layout, a: seq<byte>, b: seq<byte>)
    ensures Scan(p, a + b) == Scan(Scan(p, a), b)
    decreases |b|
  {
    hide Step;
    if b == [] {
      assert a + b == a;
    } else {
      assert (a + b)[..|a + b| - 1] == a + b[..|b| - 1];
      ScanConcat(p, a, b[..|b| - 1]);
    }
  }

  lemma {:induction false} OneByte(p: Layout, b: byte)
    ensures Scan(p, [b]) == Step(p, b)
  {
    assert [b][..0] == [];
  }

  lemma {:induction false} FirstByte(p: Layout, b: byte, s: seq<byte>)
    ensures Scan(p, [b] + s) == Scan(Step(p, b), s)
  {
    hide Step;
    ScanConcat(p, [b], s);
    OneByte(p, b);
  }

  // ---------------------------------------------------------------- strings, words and numbers

  /** Bytes that a string may hold as they are. */
  lemma {:induction false} InsideStays(n: nat, s: seq<byte>)
    requires forall k :: 0 <= k < |s| ==> s[k] >= 0x20 && s[k] != 0x22 && s[k] != 0x5C
    ensures Scan(Inside(n), s) == Inside(n)
    decreases |s|
  {
    if s == [] {
    } else {
      InsideStays(n, s[..|s| - 1]);
    }
  }

  /** What follows the backslash of an escape. */
  lemma {:induction false} EscapeTail(b: byte) returns (rest: seq<byte>)
    requires NeedsEscape(b)
    ensures EscapeByte(b) == [BACKSLASH] + rest && rest != [] && rest[0] >= 0x20
    ensures forall k :: 1 <= k < |rest| ==> rest[k] >= 0x20 && rest[k] != 0x22 && rest[k] != 0x5C
  {
    rest := EscapeByte(b)[1..];
  }

  lemma {:induction false} EscapedByteLaid(n: nat, b: byte)
    ensures Scan(Inside(n), EscapeByte(b)) == Inside(n)
  {
    if !NeedsEscape(b) {
      InsideStays(n, [b]);
    } else {
      var rest := EscapeTail(b);
      hide Scan, EscapeByte;
      assert rest == [rest[0]] + rest[1..];
      FirstByte(Inside(n), BACKSLASH, rest);
      FirstByte(Escaped(n), rest[0], rest[1..]);
      InsideStays(n, rest[1..]);
    }
  }

  lemma {:induction false} EscapeTextLaid(n: nat, t: seq<byte>, k: nat)
    requires k <= |t|
    ensures Scan(Inside(n), EscapeText(t, k)) == Inside(n)
    decreases |t| - k
  {
    hide EscapeByte, Step;
    if k == |t| {
    } else {
      EscapedByteLaid(n, t[k]);
      EscapeTextLaid(n, t, k + 1);
      ScanConcat(Inside(n), EscapeByte(t[k]), EscapeText(t, k + 1));
    }
  }

  /** A literal, outside strings or as the key that a line starts with. */
  lemma {:induction false} StringLaid(p: Layout, t: seq<byte>)
    requires p.Outside? || (p.LineStart? && p.tabs == p.open)
    ensures Scan(p, StringText(t)) == Outside(p.open)
  {
    hide EscapeText, Scan;
    var inner := EscapeText(t, 0);
    assert StringText(t) == [QUOTE] + (inner + [QUOTE]);
    FirstByte(p, QUOTE, inner + [QUOTE]);
    EscapeTextLaid(p.open, t, 0);
    ScanConcat(Inside(p.open), inner, [QUOTE]);
    OneByte(Inside(p.open), QUOTE);
  }

  /** Letters, digits and minus signs. */
  lemma {:induction false} OutsideStays(n: nat, s: seq<byte>)
    requires forall k :: 0 <= k < |s| ==>
      s[k] > 0x20 && s[k] !in {0x22, 0x2C, 0x3A, 0x5B, 0x5D, 0x7B, 0x7D}
    ensures Scan(Outside(n), s) == Outside(n)
    decreases |s|
  {
    if s == [] {
    } else {
      OutsideStays(n, s[..|s| - 1]);
    }
  }

  lemma {:induction false} TabsLaid(n: nat, tabs: nat)
    ensures Scan(LineStart(n, 0), Tabs(tabs)) == LineStart(n, tabs)
    decreases tabs
  {
    if tabs == 0 {
    } else {
      TabsLaid(n, tabs - 1);
      assert Tabs(tabs)[..tabs - 1] == Tabs(tabs - 1);
    }
  }

  /** Digits only, and no zero in front (section 6 of RFC 8259). */
  lemma {:induction false} DigitsCanonical(n: nat)
    ensures forall k :: 0 <= k < |Digits(n)| ==> 0x30 <= Digits(n)[k] <= 0x39
    ensures Digits(n)[0] == 0x30 ==> n == 0 && |Digits(n)| == 1
  {
    if n < 10 {
    } else {
      DigitsCanonical(n / 10);
    }
  }

  lemma {:induction false} LeafLaid(t: Json, d: nat)
    requires ValidTree(t) && !t.Array? && !t.Object?
    ensures Scan(Outside(d), ValueText(t, d, true)) == Outside(d)
  {
    if t.String? {
      StringLaid(Outside(d), t.text);
    } else {
      if t.Number? {
        DigitsCanonical(if t.value.Floor < 0 then -t.value.Floor else t.value.Floor);
      }
      OutsideStays(d, ValueText(t, d, true));
    }
  }

  // ---------------------------------------------------------------- arrays and objects

  lemma {:induction false} ItemSepLaid(d: nat, more: bool)
    ensures Scan(Outside(d), ItemSep(more, true)) == Outside(d)
  {
    if more {
      assert ItemSep(more, true) == [COMMA] + [SP];
      FirstByte(Outside(d), COMMA, [SP]);
      OneByte(BehindComma(d), SP);
    }
  }

  lemma {:induction false} ItemsLaid(items: seq<Json>, k: nat, d: nat)
    requires ValidItems(items) && k <= |items|
    ensures Scan(Outside(d), ItemsText(items, k, d, true)) == Outside(d)
    decreases items, |items| - k
  {
    hide ValueText, Step;
    if k == |items| {
    } else {
      var v, sep, rest := ValueText(items[k], d, true), ItemSep(k + 1 < |items|, true),
        ItemsText(items, k + 1, d, true);
      FormattedLaid(items[k], d);
      ItemSepLaid(d, k + 1 < |items|);
      ItemsLaid(items, k + 1, d);
      ScanConcat(Outside(d), v, sep);
      ScanConcat(Outside(d), v + sep, rest);
    }
  }

  lemma {:induction false} KeyLaid(key: seq<byte>, d: nat)
    ensures Scan(LineStart(d, 0), KeyText(key, d, true)) == Outside(d)
  {
    hide Scan, StringText;
    var a, b := Tabs(d), StringText(key);
    TabsLaid(d, d);
    StringLaid(LineStart(d, d), key);
    ScanConcat(LineStart(d, 0), a, b);
    ScanConcat(LineStart(d, 0), a + b, [COLON, HT]);
    assert [COLON, HT] == [COLON] + [HT];
    FirstByte(Outside(d), COLON, [HT]);
    OneByte(BehindColon(d), HT);
  }

  lemma {:induction false} MemberEndLaid(d: nat, more: bool)
    ensures Scan(Outside(d), MemberSep(more, true)) == LineStart(d, 0)
  {
    if more {
      OneByte(BehindComma(d), LF);
      assert MemberSep(more, true) == [COMMA] + [LF];
      FirstByte(Outside(d), COMMA, [LF]);
    } else {
      OneByte(Outside(d), LF);
      assert MemberSep(more, true) == [LF];
    }
  }

  lemma {:induction false} MembersLaid(members: seq<Member>, k: nat, d: nat)
    requires ValidMembers(members) && k <= |members|
    ensures Scan(LineStart(d, 0), MembersText(members, k, d, true)) == LineStart(d, 0)
    decreases members, |members| - k
  {
    hide ValueText, KeyText, MemberSep, Step;
    if k == |members| {
    } else {
      var key, v := KeyText(members[k].key, d, true), ValueText(members[k].value, d, true);
      var sep, rest := MemberSep(k + 1 < |members|, true), MembersText(members, k + 1, d, true);
      KeyLaid(members[k].key, d);
      FormattedLaid(members[k].value, d);
      MemberEndLaid(d, k + 1 < |members|);
      MembersLaid(members, k + 1, d);
      ScanConcat(Outside(d), v, sep);
      ScanConcat(LineStart(d, 0), key, v + sep);
      ScanConcat(LineStart(d, 0), key + (v + sep), rest);
    }
  }

  lemma {:induction false} ArrayLaid(items: seq<Json>, d: nat)
    requires ValidItems(items) && Scan(Outside(d + 1), ItemsText(items, 0, d + 1, true)) == Outside(d + 1)
    ensures Scan(Outside(d), [0x5B] + ItemsText(items, 0, d + 1, true) + [0x5D]) == Outside(d)
  {
    hide Scan, ItemsText;
    var inner := ItemsText(items, 0, d + 1, true);
    assert [0x5B] + inner + [0x5D] == [0x5B] + (inner + [0x5D]);
    FirstByte(Outside(d), 0x5B, inner + [0x5D]);
    ScanConcat(Outside(d + 1), inner, [0x5D]);
    OneByte(Outside(d + 1), 0x5D);
  }

  lemma {:induction false} ObjectLaid(members: seq<Member>, d: nat)
    requires ValidMembers(members)
    requires Scan(LineStart(d + 1, 0), MembersText(members, 0, d + 1, true)) == LineStart(d + 1, 0)
    ensures Scan(Outside(d), ObjectOpen(true) + MembersText(members, 0, d + 1, true) + ObjectClose(d, true))
            == Outside(d)
  {
    hide Scan, MembersText;
    var inner := MembersText(members, 0, d + 1, true);
    assert ObjectOpen(true) == [0x7B] + [LF];
    FirstByte(Outside(d), 0x7B, [LF]);
    OneByte(Outside(d + 1), LF);
    ScanConcat(Outside(d), ObjectOpen(true), inner);
    TabsLaid(d + 1, d);
    ScanConcat(LineStart(d + 1, 0), Tabs(d), [0x7D]);
    OneByte(LineStart(d + 1, d), 0x7D);
    ScanConcat(Outside(d), ObjectOpen(true) + inner, ObjectClose(d, true));
  }

  /** Formatted text stands under the brackets that are open, line by line. */
  lemma {:induction false} FormattedLaid(t: Json, d: nat)
    requires ValidTree(t)
    ensures Scan(Outside(d), ValueText(t, d, true)) == Outside(d)
    decreases t
  {
    hide ItemsText, MembersText, Scan, ObjectOpen, ObjectClose;
    match t
    case Array(items) =>
      ItemsLaid(items, 0, d + 1);
      ArrayLaid(items, d);
    case Object(members) =>
      MembersLaid(members, 0, d + 1);
      ObjectLaid(members, d);
    case _ => LeafLaid(t, d);
  }

  // ---------------------------------------------------------------- unformatted text

  predicate NoControl(s: seq<byte>) { forall k :: 0 <= k < |s| ==> s[k] >= 0x20 }

  lemma {:induction false} StringNoControl(t: seq<byte>, k: nat)
    requires k <= |t|
    ensures NoControl(EscapeText(t, k)) && (k == 0 ==> NoControl(StringText(t)))
    decreases |t| - k
  {
    if k == |t| {
    } else {
      StringNoControl(t, k + 1);
      assert NoControl(EscapeByte(t[k]));
    }
  }

  lemma {:induction false} ItemsNoControl(items: seq<Json>, k: nat, d: nat)
    requires ValidItems(items) && k <= |items|
    ensures NoControl(ItemsText(items, k, d, false))
    decreases items, |items| - k
  {
    hide ValueText;
    if k == |items| {
    } else {
      CompactNoControl(items[k], d);
      ItemsNoControl(items, k + 1, d);
    }
  }

  lemma {:induction false} MembersNoControl(members: seq<Member>, k: nat, d: nat)
    requires ValidMembers(members) && k <= |members|
    ensures NoControl(MembersText(members, k, d, false))
    decreases members, |members| - k
  {
    hide ValueText, StringText;
    if k == |members| {
    } else {
      StringNoControl(members[k].key, 0);
      CompactNoControl(members[k].value, d);
      MembersNoControl(members, k + 1, d);
    }
  }

  /** Unformatted text is one line without tabs: it holds no byte below 0x20 at all. */
  lemma {:induction false} CompactNoControl(t: Json, d: nat)
    requires ValidTree(t)
    ensures NoControl(ValueText(t, d, false))
    decreases t
  {
    hide ItemsText, MembersText, StringText;
    match t
    case Number(v) => DigitsCanonical(if v.Floor < 0 then -v.Floor else v.Floor);
    case String(text) => StringNoControl(text, 0);
    case Array(items) => ItemsNoControl(items, 0, d + 1);
    case Object(members) => MembersNoControl(members, 0, d + 1);
    case _ =>
  }
}
