/**
 The printer (`print_value` and what it calls) over a buffer that is either the caller's and fixed
 or grows.  Printing succeeds exactly when the text and two more bytes fit, and leaves the text of
 `JsonTree` in the buffer.
 */
module JsonPrinter {
  import opened Bytes
  import opened JsonString
  import opened JsonTree
  import opened JsonGrammar
  import opened JsonRoundTrip

  // ---------------------------------------------------------------- printed text holds no NUL

  lemma {:induction false} DigitsNoNul(n: nat)
    ensures NUL !in Digits(n)
  {
    DigitsBytes(n);
  }

  lemma {:induction false} EscapeNoNul(t: seq<byte>, k: nat)
    requires NUL !in t && k <= |t|
    ensures NUL !in EscapeText(t, k)
    decreases |t| - k
  {
    if k == |t| {
    } else {
      EscapeNoNul(t, k + 1);
    }
  }

  lemma {:induction false} ItemsNoNul(items: seq<Json>, k: nat, d: nat, format: bool)
    requires ValidItems(items) && k <= |items|
    ensures NUL !in ItemsText(items, k, d, format)
    decreases items, |items| - k
  {
    hide ValueText;
    if k == |items| {
    } else {
      TextNoNul(items[k], d, format);
      ItemsNoNul(items, k + 1, d, format);
    }
  }

  lemma {:induction false} MembersNoNul(members: seq<Member>, k: nat, d: nat, format: bool)
    requires ValidMembers(members) && k <= |members|
    ensures NUL !in MembersText(members, k, d, format)
    decreases members, |members| - k
  {
    hide ValueText, StringText;
    if k == |members| {
    } else {
      StringNoNul(members[k].key);
      TextNoNul(members[k].value, d, format);
      MembersNoNul(members, k + 1, d, format);
    }
  }

  lemma {:induction false} StringNoNul(t: seq<byte>)
    requires NUL !in t
    ensures NUL !in StringText(t)
  {
    EscapeNoNul(t, 0);
  }

  lemma {:induction false} TextNoNul(t: Json, d: nat, format: bool)
    requires ValidTree(t)
    ensures NUL !in ValueText(t, d, format)
    decreases t
  {
    hide ItemsText, MembersText, StringText;
    match t
    case Number(v) => DigitsNoNul(if v.Floor < 0 then -v.Floor else v.Floor);
    case String(text) => StringNoNul(text);
    case Array(items) => ItemsNoNul(items, 0, d + 1, format);
    case Object(members) => MembersNoNul(members, 0, d + 1, format);
    case _ =>
  }

  lemma {:induction false} EscapeLength(b: byte)
    ensures |EscapeByte(b)| == if EscapeLetter(b) >= 0 then 2 else if b < 32 then 6 else 1
    ensures EscapeLetter(b) < 0 && b >= 32 ==> EscapeByte(b) == [b]
  {
  }

  // ---------------------------------------------------------------- the text of a list, one child at a time

  lemma {:induction false} ItemsStep(out: seq<byte>, items: seq<Json>, k: nat, d: nat, format: bool)
    requires ValidItems(items) && k < |items|
    ensures out + ItemsText(items, k, d, format)
         == out + ValueText(items[k], d, format) + ItemSep(k + 1 < |items|, format) + ItemsText(items, k + 1, d, format)
  {
    hide ValueText, ItemSep;
    var v, sep, rest := ValueText(items[k], d, format), ItemSep(k + 1 < |items|, format),
      ItemsText(items, k + 1, d, format);
    assert out + (v + sep + rest) == out + v + sep + rest;
  }

  lemma {:induction false} MembersStep(out: seq<byte>, members: seq<Member>, k: nat, d: nat, format: bool)
    requires ValidMembers(members) && k < |members|
    ensures out + MembersText(members, k, d, format)
         == out + (KeyText(members[k].key, d, format)
                   + (ValueText(members[k].value, d, format) + MemberSep(k + 1 < |members|, format)))
            + MembersText(members, k + 1, d, format)
  {
    hide ValueText, KeyText, MemberSep;
    var key, v := KeyText(members[k].key, d, format), ValueText(members[k].value, d, format);
    var sep, rest := MemberSep(k + 1 < |members|, format), MembersText(members, k + 1, d, format);
    assert out + (key + (v + sep) + rest) == out + (key + (v + sep)) + rest;
  }

  lemma {:induction false} ArrayText(t: Json, d: nat, format: bool)
    requires ValidTree(t) && t.Array?
    ensures ValidItems(t.items) && ValueText(t, d, format) == [0x5B] + ItemsText(t.items, 0, d + 1, format) + [0x5D]
  {
  }

  lemma {:induction false} ObjectText(t: Json, d: nat, format: bool)
    requires ValidTree(t) && t.Object?
    ensures ValidMembers(t.members)
    ensures ValueText(t, d, format)
            == ObjectOpen(format) + MembersText(t.members, 0, d + 1, format) + ObjectClose(d, format)
  {
  }

  /** `printbuffer`. */
  class PrintBuffer {
    var buffer: array<byte>
    var length: nat
    var offset: nat
    var depth: nat
    const noalloc: bool
    const format: bool

    ghost predicate Valid()
      reads this
    {
      offset <= length == buffer.Length <= INT_MAX
    }

    /** The guard on the offset at the start of `ensure`. */
    predicate Ready()
      reads this
    {
      length == 0 || offset < length
    }

    /** How large the buffer can become. */
    function Capacity(): nat
      reads this
    {
      if noalloc then length else INT_MAX
    }

    /** What has been printed so far. */
    ghost function Out(): (out: seq<byte>)
      requires Valid()
      reads this, buffer
      ensures |out| == offset
    {
      buffer[..offset]
    }

    /** `text` and its terminator stand at the start of the buffer, and at most the text is counted by the offset. */
    ghost predicate Holds(text: seq<byte>)
      requires Valid()
      reads this, buffer
    {
      |text| + 2 <= length && offset <= |text| && buffer[..|text|] == text && buffer[|text|] == NUL
    }

    constructor (buffer: array<byte>, noalloc: bool, format: bool)
      requires buffer.Length <= INT_MAX
      ensures Valid() && Ready() && offset == 0 && depth == 0
      ensures this.buffer == buffer && this.noalloc == noalloc && this.format == format
    {
      this.buffer, this.noalloc, this.format := buffer, noalloc, format;
      length, offset, depth := buffer.Length, 0, 0;
    }

    /** `realloc`: a new block with the old bytes as far as they fit. */
    method Reallocate(newSize: nat)
      requires Valid() && offset <= newSize <= INT_MAX
      modifies `buffer, `length
      ensures Valid() && fresh(buffer) && length == newSize
      ensures forall k :: 0 <= k < newSize && k < old(length) ==> buffer[k] == old(buffer[k])
    {
      var newBuffer := new byte[newSize](i requires 0 <= i < newSize reads this, buffer =>
        if i < buffer.Length then buffer[i] else NUL);
      buffer, length := newBuffer, newSize;
    }

    /** `ensure`. */
    method Ensure(needed: nat) returns (ok: bool)
      requires Valid()
      modifies `buffer, `length
      ensures Valid() && Capacity() == old(Capacity())
      ensures ok <==> old(Ready()) && offset + needed + 1 <= Capacity()
      ensures buffer == old(buffer) || (!noalloc && fresh(buffer))
      ensures Out() == old(Out())
      ensures ok ==> offset + needed + 1 <= length
    {
      if length > 0 && offset >= length {
        return false;
      }
      if needed > INT_MAX {
        return false;
      }
      var total := needed + offset + 1;
      if total <= length {
        return true;
      }
      if noalloc {
        return false;
      }
      var newSize;
      if total > INT_MAX / 2 {
        if total <= INT_MAX {
          newSize := INT_MAX;
        } else {
          return false;
        }
      } else {
        newSize := total * 2;
      }
      Reallocate(newSize);
      assert Out() == old(Out());
      return true;
    }

    /** Stores bytes through the output pointer, which is at `at`. */
    method Write(at: nat, w: seq<byte>)
      requires at + |w| <= buffer.Length
      modifies buffer
      ensures buffer[..at + |w|] == old(buffer[..at]) + w
    {
      var i := 0;
      while i < |w|
        invariant i <= |w| && buffer[..at + i] == old(buffer[..at]) + w[..i]
      {
        buffer[at + i] := w[i];
        i := i + 1;
        assert buffer[..at + i] == buffer[..at + i - 1] + [w[i - 1]];
      }
      assert w[..|w|] == w;
    }

    /** Reserves `needed` bytes and stores these in them. */
    method Put(needed: nat, w: seq<byte>) returns (ok: bool)
      requires Valid() && Ready() && |w| <= needed
      modifies this, buffer
      ensures Valid() && Capacity() == old(Capacity()) && offset == old(offset) && depth == old(depth)
      ensures buffer == old(buffer) || (!noalloc && fresh(buffer))
      ensures ok <==> offset + needed + 1 <= Capacity()
      ensures ok ==> Ready() && offset + needed + 1 <= length && buffer[..offset + |w|] == old(Out()) + w
    {
      ok := Ensure(needed);
      if ok {
        Write(offset, w);
      }
    }

    /** `update_offset`: a call of `strlen`; the terminator it finds is that of `text`. */
    method UpdateOffset(ghost out: seq<byte>, ghost text: seq<byte>)
      requires Valid() && Holds(out + text) && |out| <= offset && NUL !in text
      modifies `offset
      ensures Valid() && Ready() && Out() == out + text
    {
      assert forall k :: |out| <= k < |out + text| ==> buffer[k] == buffer[..|out + text|][k] == text[k - |out|];
      while buffer[offset] != NUL
        invariant Valid() && Holds(out + text) && |out| <= offset
        decreases length - offset
      {
        offset := offset + 1;
      }
    }

    // -------------------------------------------------------------- strings

    /** The escape of one byte, stored through the output pointer; `sprintf` also stores a terminator. */
    method WriteEscape(at: nat, b: byte) returns (next: nat)
      requires at + |EscapeByte(b)| < buffer.Length
      modifies buffer
      ensures next == at + |EscapeByte(b)| && buffer[..next] == old(buffer[..at]) + EscapeByte(b)
    {
      if b > 31 && b != QUOTE && b != BACKSLASH {
        Write(at, [b]);
        return at + 1;
      }
      if EscapeLetter(b) >= 0 {
        Write(at, [BACKSLASH, EscapeLetter(b)]);
        return at + 2;
      }
      Write(at, [BACKSLASH, 0x75, 0x30, 0x30, HexChar(b / 16), HexChar(b % 16), NUL]);
      next := at + 6;
      assert buffer[..next] == buffer[..next + 1][..next];
    }

    /** The first loop of `print_string_ptr`: how many bytes escaping adds. */
    method CountEscapes(input: seq<byte>) returns (extra: nat)
      requires NUL !in input
      ensures |input| + extra == |EscapeText(input, 0)|
      ensures extra == 0 ==> EscapeText(input, 0) == input
    {
      hide EscapeByte;
      extra := 0;
      var k := 0;
      while k < |input|
        invariant k <= |input| && k + extra + |EscapeText(input, k)| == |EscapeText(input, 0)|
        invariant extra == 0 ==> EscapeText(input, 0) == input[..k] + EscapeText(input, k)
      {
        EscapeLength(input[k]);
        if EscapeLetter(input[k]) >= 0 {
          extra := extra + 1;
        } else if input[k] < 32 {
          extra := extra + 5;
        }
        k := k + 1;
        assert extra == 0 ==> input[..k] == input[..k - 1] + EscapeByte(input[k - 1]);
      }
    }

    /** The second loop: the escaped bytes, from the output pointer on. */
    method WriteEscaped(at: nat, input: seq<byte>)
      requires NUL !in input && at + |EscapeText(input, 0)| < buffer.Length
      modifies buffer
      ensures buffer[..at + |EscapeText(input, 0)|] == old(buffer[..at]) + EscapeText(input, 0)
    {
      ghost var before := buffer[..at];
      var k, out := 0, at;
      while k < |input|
        invariant k <= |input| && at <= out && out + |EscapeText(input, k)| == at + |EscapeText(input, 0)|
        invariant buffer[..out] + EscapeText(input, k) == before + EscapeText(input, 0)
      {
        ghost var done := buffer[..out];
        out := WriteEscape(out, input[k]);
        assert done + (EscapeByte(input[k]) + EscapeText(input, k + 1))
               == done + EscapeByte(input[k]) + EscapeText(input, k + 1);
        k := k + 1;
      }
    }

    /** The quotes and what is between them: copied if nothing is escaped. */
    method WriteLiteral(input: seq<byte>, extra: nat)
      requires Valid() && NUL !in input && |input| + extra == |EscapeText(input, 0)|
      requires extra == 0 ==> EscapeText(input, 0) == input
      requires offset + |input| + extra + 4 <= length
      modifies buffer
      ensures buffer[..offset + |input| + extra + 3] == old(Out()) + StringText(input) + [NUL]
    {
      hide EscapeText;
      ghost var before, inner := Out(), EscapeText(input, 0);
      var length := |input| + extra;
      if extra == 0 {
        Write(offset, [QUOTE] + input + [QUOTE, NUL]);
        assert before + ([QUOTE] + inner + [QUOTE, NUL]) == before + ([QUOTE] + inner + [QUOTE]) + [NUL];
      } else {
        Write(offset, [QUOTE]);
        WriteEscaped(offset + 1, input);
        Write(offset + 1 + length, [QUOTE, NUL]);
        assert before + [QUOTE] + inner + [QUOTE, NUL] == before + ([QUOTE] + inner + [QUOTE]) + [NUL];
      }
    }

    lemma {:induction false} HeldText(out: seq<byte>, text: seq<byte>)
      requires Valid() && offset == |out| && |out| + |text| + 2 <= length
      requires buffer[..|out| + |text| + 1] == out + text + [NUL]
      ensures Holds(out + text)
    {
      assert buffer[..|out + text|] == buffer[..|out + text| + 1][..|out + text|];
    }

    /** `print_string_ptr`. */
    method PrintStringPtr(input: seq<byte>) returns (ok: bool)
      requires Valid() && Ready() && NUL !in input
      modifies this, buffer
      ensures Valid() && Capacity() == old(Capacity()) && depth == old(depth)
      ensures buffer == old(buffer) || (!noalloc && fresh(buffer))
      ensures ok <==> old(offset) + |StringText(input)| + 2 <= Capacity()
      ensures ok ==> Ready() && old(offset) <= offset && Holds(old(Out()) + StringText(input))
    {
      hide EscapeText;
      var extra := CountEscapes(input);
      ok := Ensure(|input| + extra + 3);
      if ok {
        WriteLiteral(input, extra);
        HeldText(old(Out()), StringText(input));
      }
    }

    // -------------------------------------------------------------- values

    /** Text and its terminator, not counted by the offset: a constant, or the end of an array or object. */
    method PrintText(text: seq<byte>) returns (ok: bool)
      requires Valid() && Ready()
      modifies this, buffer
      ensures Valid() && Capacity() == old(Capacity()) && depth == old(depth)
      ensures buffer == old(buffer) || (!noalloc && fresh(buffer))
      ensures ok <==> old(offset) + |text| + 2 <= Capacity()
      ensures ok ==> Ready() && offset == old(offset) && Holds(old(Out()) + text)
    {
      ok := Put(|text| + 1, text + [NUL]);
      if ok {
        assert old(Out()) + (text + [NUL]) == old(Out()) + text + [NUL];
        HeldText(old(Out()), text);
      }
    }

    /** `print_number` of an int, which counts the digits by the offset itself. */
    method PrintNumber(n: int) returns (ok: bool)
      requires Valid() && Ready()
      modifies this, buffer
      ensures Valid() && Capacity() == old(Capacity()) && depth == old(depth)
      ensures buffer == old(buffer) || (!noalloc && fresh(buffer))
      ensures ok <==> old(offset) + |DecimalText(n)| + 2 <= Capacity()
      ensures ok ==> Ready() && offset == old(offset) + |DecimalText(n)| && Holds(old(Out()) + DecimalText(n))
    {
      hide DecimalText;
      var number := DecimalText(n);
      ok := PrintText(number);
      if ok {
        offset := offset + |number|;
      }
    }

    /** Bytes behind which the output pointer is left. */
    method Emit(needed: nat, w: seq<byte>, terminate: bool) returns (ok: bool)
      requires Valid() && Ready() && needed >= |w| + (if terminate then 1 else 0)
      modifies this, buffer
      ensures Valid() && Capacity() == old(Capacity()) && depth == old(depth)
      ensures buffer == old(buffer) || (!noalloc && fresh(buffer))
      ensures ok <==> old(offset) + needed + 1 <= Capacity()
      ensures ok ==> Ready() && Out() == old(Out()) + w
    {
      ok := Put(needed, if terminate then w + [NUL] else w);
      if ok {
        assert terminate ==> buffer[..offset + |w|] == buffer[..offset + |w| + 1][..offset + |w|];
        offset := offset + |w|;
      }
    }

    /** A value and `update_offset`. */
    method PrintChild(t: Json) returns (ok: bool)
      requires Valid() && Ready() && ValidTree(t)
      modifies this, buffer
      ensures Valid() && Capacity() == old(Capacity())
      ensures buffer == old(buffer) || (!noalloc && fresh(buffer))
      ensures ok <==> old(offset) + |ValueText(t, old(depth), format)| + 2 <= Capacity()
      ensures ok ==> Ready() && depth == old(depth) && Out() == old(Out()) + ValueText(t, depth, format)
      decreases t, 2
    {
      hide ValueText;
      ok := PrintValue(t);
      if ok {
        TextNoNul(t, depth, format);
        UpdateOffset(old(Out()), ValueText(t, depth, format));
      }
    }

    /** One turn of the loop of `print_array`. */
    method PrintItem(items: seq<Json>, k: nat) returns (ok: bool)
      requires Valid() && Ready() && ValidItems(items) && k < |items|
      modifies this, buffer
      ensures Valid() && Capacity() == old(Capacity())
      ensures buffer == old(buffer) || (!noalloc && fresh(buffer))
      ensures var v, sep := ValueText(items[k], old(depth), format), ItemSep(k + 1 < |items|, format);
              if ok then Ready() && depth == old(depth) && Out() == old(Out()) + v + sep
              else old(offset) + |v| + |sep| + 2 > Capacity()
      decreases items[k], 3
    {
      hide ValueText;
      ok := PrintChild(items[k]);
      if ok && k + 1 < |items| {
        var length := if format then 2 else 1;
        ok := Emit(length + 1, if format then [COMMA, SP] else [COMMA], true);
      }
    }

    /** The loop of `print_array`. */
    method PrintItems(items: seq<Json>) returns (ok: bool)
      requires Valid() && Ready() && ValidItems(items)
      modifies this, buffer
      ensures Valid() && Capacity() == old(Capacity())
      ensures buffer == old(buffer) || (!noalloc && fresh(buffer))
      ensures var text := ItemsText(items, 0, old(depth), format);
              if ok then Ready() && depth == old(depth) && Out() == old(Out()) + text
              else old(offset) + |text| + 2 > Capacity()
      decreases items, |items| + 1
    {
      hide ItemsText, ValueText, ItemSep;
      ok := true;
      ghost var goal := Out() + ItemsText(items, 0, depth, format);
      var k := 0;
      while k < |items|
        invariant k <= |items| && Valid() && Ready() && Capacity() == old(Capacity()) && depth == old(depth)
        invariant buffer == old(buffer) || (!noalloc && fresh(buffer))
        invariant Out() + ItemsText(items, k, depth, format) == goal
      {
        ghost var out := Out();
        ItemsStep(out, items, k, depth, format);
        ok := PrintItem(items, k);
        if !ok {
          return;
        }
        k := k + 1;
      }
      NoItems(items, depth, format);
    }

    /** `print_array`. */
    method PrintArray(t: Json) returns (ok: bool)
      requires Valid() && Ready() && ValidTree(t) && t.Array?
      modifies this, buffer
      ensures Valid() && Capacity() == old(Capacity())
      ensures buffer == old(buffer) || (!noalloc && fresh(buffer))
      ensures ok <==> old(offset) + |ValueText(t, old(depth), format)| + 2 <= Capacity()
      ensures ok ==> Ready() && depth == old(depth) && old(offset) <= offset
      ensures ok ==> Holds(old(Out()) + ValueText(t, depth, format))
      decreases t, 0
    {
      hide ItemsText, ValueText, ValidTree;
      ArrayText(t, depth, format);
      ghost var out, text := Out(), ItemsText(t.items, 0, depth + 1, format);
      ok := Emit(1, [0x5B], false);
      if !ok {
        return;
      }
      depth := depth + 1;
      ok := PrintItems(t.items);
      if !ok {
        return;
      }
      assert out + [0x5B] + text + [0x5D] == out + ([0x5B] + text + [0x5D]);
      ok := PrintText([0x5D]);
      depth := depth - 1;
    }

    /** `print_value`. */
    method PrintValue(t: Json) returns (ok: bool)
      requires Valid() && Ready() && ValidTree(t)
      modifies this, buffer
      ensures Valid() && Capacity() == old(Capacity())
      ensures buffer == old(buffer) || (!noalloc && fresh(buffer))
      ensures ok <==> old(offset) + |ValueText(t, old(depth), format)| + 2 <= Capacity()
      ensures ok ==> Ready() && depth == old(depth) && old(offset) <= offset
      ensures ok ==> Holds(old(Out()) + ValueText(t, depth, format))
      decreases t, 1
    {
      hide StringText, DecimalText, ItemsText, MembersText;
      match t
      case Null => ok := PrintText(NULL_TEXT);
      case False => ok := PrintText(FALSE_TEXT);
      case True => ok := PrintText(TRUE_TEXT);
      case Number(v) => ok := PrintNumber(v.Floor);
      case String(text) => ok := PrintStringPtr(text);
      case Array(_) => ok := PrintArray(t);
      case Object(_) => ok := PrintObject(t);
    }

    /** The key of a member, the indent before it and the colon behind it. */
    method PrintKey(key: seq<byte>) returns (ok: bool)
      requires Valid() && Ready() && NUL !in key
      modifies this, buffer
      ensures Valid() && Capacity() == old(Capacity()) && depth == old(depth)
      ensures buffer == old(buffer) || (!noalloc && fresh(buffer))
      ensures if ok then Ready() && Out() == old(Out()) + KeyText(key, depth, format)
              else old(offset) + |KeyText(key, depth, format)| + 1 > Capacity()
    {
      hide StringText;
      ok := true;
      if format {
        ok := Emit(depth, Tabs(depth), false);
      }
      if !ok {
        return;
      }
      assert Out() == old(Out()) + Indent(depth, format);
      ghost var out := Out();
      ok := PrintStringPtr(key);
      if !ok {
        return;
      }
      StringNoNul(key);
      UpdateOffset(out, StringText(key));
      var length := if format then 2 else 1;
      ok := Emit(length, if format then [COLON, HT] else [COLON], false);
      assert old(Out()) + Indent(depth, format) + StringText(key) + KeySep(format)
             == old(Out()) + KeyText(key, depth, format);
    }

    /** One turn of the loop of `print_object`. */
    method PrintMember(members: seq<Member>, k: nat) returns (ok: bool)
      requires Valid() && Ready() && ValidMembers(members) && k < |members|
      modifies this, buffer
      ensures Valid() && Capacity() == old(Capacity())
      ensures buffer == old(buffer) || (!noalloc && fresh(buffer))
      ensures var key, v := KeyText(members[k].key, old(depth), format),
              ValueText(members[k].value, old(depth), format);
              var sep := MemberSep(k + 1 < |members|, format);
              if ok then Ready() && depth == old(depth) && Out() == old(Out()) + (key + (v + sep))
              else old(offset) + |key| + |v| + |sep| + 2 > Capacity()
      decreases members[k].value, 3
    {
      hide ValueText, KeyText;
      ghost var key, v := KeyText(members[k].key, depth, format), ValueText(members[k].value, depth, format);
      ok := PrintKey(members[k].key);
      if !ok {
        return;
      }
      ok := PrintChild(members[k].value);
      if !ok {
        return;
      }
      var more := k + 1 < |members|;
      var length := (if format then 1 else 0) + (if more then 1 else 0);
      ok := Emit(length + 1, (if more then [COMMA] else []) + (if format then [LF] else []), true);
      assert old(Out()) + key + v + MemberSep(more, format) == old(Out()) + (key + (v + MemberSep(more, format)));
    }

    /** The loop of `print_object`. */
    method PrintMembers(members: seq<Member>) returns (ok: bool)
      requires Valid() && Ready() && ValidMembers(members)
      modifies this, buffer
      ensures Valid() && Capacity() == old(Capacity())
      ensures buffer == old(buffer) || (!noalloc && fresh(buffer))
      ensures var text := MembersText(members, 0, old(depth), format);
              if ok then Ready() && depth == old(depth) && Out() == old(Out()) + text
              else old(offset) + |text| + 2 > Capacity()
      decreases members, |members| + 1
    {
      hide MembersText, ValueText, KeyText, MemberSep;
      ok := true;
      ghost var goal := Out() + MembersText(members, 0, depth, format);
      var k := 0;
      while k < |members|
        invariant k <= |members| && Valid() && Ready() && Capacity() == old(Capacity()) && depth == old(depth)
        invariant buffer == old(buffer) || (!noalloc && fresh(buffer))
        invariant Out() + MembersText(members, k, depth, format) == goal
      {
        ghost var out := Out();
        MembersStep(out, members, k, depth, format);
        ok := PrintMember(members, k);
        if !ok {
          return;
        }
        k := k + 1;
      }
      NoMembers(members, depth, format);
    }

    /** `print_object` up to its closing brace. */
    method PrintObjectOpen(members: seq<Member>) returns (ok: bool)
      requires Valid() && Ready() && ValidMembers(members)
      modifies this, buffer
      ensures Valid() && Capacity() == old(Capacity())
      ensures buffer == old(buffer) || (!noalloc && fresh(buffer))
      ensures var text := ObjectOpen(format) + MembersText(members, 0, old(depth) + 1, format);
              if ok then Ready() && depth == old(depth) + 1 && Out() == old(Out()) + text
              else old(offset) + |text| + 2 > Capacity()
      decreases members, |members| + 2
    {
      hide MembersText;
      var length := if format then 2 else 1;
      ok := Emit(length + 1, if format then [0x7B, LF] else [0x7B], false);
      if ok {
        depth := depth + 1;
        ok := PrintMembers(members);
      }
    }

    /** `print_object`. */
    method PrintObject(t: Json) returns (ok: bool)
      requires Valid() && Ready() && ValidTree(t) && t.Object?
      modifies this, buffer
      ensures Valid() && Capacity() == old(Capacity())
      ensures buffer == old(buffer) || (!noalloc && fresh(buffer))
      ensures ok <==> old(offset) + |ValueText(t, old(depth), format)| + 2 <= Capacity()
      ensures ok ==> Ready() && depth == old(depth) && old(offset) <= offset
      ensures ok ==> Holds(old(Out()) + ValueText(t, depth, format))
      decreases t, 0
    {
      hide MembersText, ValueText, ObjectOpen, ValidTree;
      ObjectText(t, depth, format);
      ghost var out, text := Out(), ObjectOpen(format) + MembersText(t.members, 0, depth + 1, format);
      ok := PrintObjectOpen(t.members);
      if ok {
        assert out + text + ObjectClose(depth - 1, format) == out + (text + ObjectClose(depth - 1, format));
        ok := PrintText(if format then Tabs(depth - 1) + [0x7D] else [0x7D]);
        depth := depth - 1;
      }
    }
  }

  /** The text of a tree in a block of memory. */
  ghost predicate HasText(block: array<byte>, t: Json, format: bool)
    requires ValidTree(t)
    reads block
  {
    var text := ValueText(t, 0, format);
    |text| < block.Length && block[..|text|] == text && block[|text|] == NUL
  }

  /** `cJSON_PrintPreallocated`: succeeds exactly when the text and two more bytes fit. */
  method PrintPreallocated(t: Json, buffer: array<byte>, length: int, format: bool) returns (ok: bool)
    requires ValidTree(t) && length <= INT_MAX && (length >= 0 ==> length == buffer.Length)
    modifies buffer
    ensures ok <==> |ValueText(t, 0, format)| + 2 <= length
    ensures ok ==> HasText(buffer, t, format)
  {
    hide ValueText, ValidTree;
    if length < 0 {
      return false;
    }
    var p := new PrintBuffer(buffer, true, format);
    assert p.Out() == [];
    ok := p.PrintValue(t);
    assert ok ==> [] + ValueText(t, 0, format) == ValueText(t, 0, format);
  }

  /** `cJSON_PrintBuffered`: from any size the buffer grows until the text fits, short of `INT_MAX`. */
  method PrintBuffered(t: Json, prebuffer: int, format: bool) returns (printed: Option<array<byte>>)
    requires ValidTree(t) && prebuffer <= INT_MAX
    ensures printed.Some? <==> prebuffer >= 0 && |ValueText(t, 0, format)| + 2 <= INT_MAX
    ensures printed.Some? ==> fresh(printed.value) && HasText(printed.value, t, format)
  {
    hide ValueText, ValidTree;
    if prebuffer < 0 {
      return None;
    }
    var buffer := new byte[prebuffer];
    var p := new PrintBuffer(buffer, false, format);
    assert p.Out() == [];
    var ok := p.PrintValue(t);
    assert ok ==> [] + ValueText(t, 0, format) == ValueText(t, 0, format);
    return if ok then Some(p.buffer) else None;
  }

  /**
   `print`, behind `cJSON_Print` and `cJSON_PrintUnformatted`: exactly the text and its terminator,
   which `cJSON_Parse` turns back into the tree if it does not nest too deep, and refuses if it does.
   */
  method Print(t: Json, format: bool) returns (printed: Option<array<byte>>)
    requires ValidTree(t)
    ensures printed.Some? <==> |ValueText(t, 0, format)| + 2 <= INT_MAX
    ensures printed.Some? ==> fresh(printed.value) && printed.value[..] == ValueText(t, 0, format) + [NUL]
    ensures printed.Some? ==>
              var s := printed.value[..];
              Terminated(s) && Parse(s) == if Nesting(t) <= NESTING_LIMIT then Parsed(t, |s| - 1) else Bad
  {
    hide ValueText, ValidTree, Parse;
    var buffer := new byte[256];
    var p := new PrintBuffer(buffer, false, format);
    assert p.Out() == [];
    var ok := p.PrintValue(t);
    if !ok {
      return None;
    }
    ghost var text := ValueText(t, 0, format);
    TextNoNul(t, 0, format);
    p.UpdateOffset([], text);
    assert [] + text == text;
    p.Reallocate(p.offset + 1);
    assert p.buffer[..|text|] == text;
    assert p.buffer[..] == text + [NUL];
    RoundTrip(t, format, [NUL]);
    return Some(p.buffer);
  }
}
