/** What the request parser promises: stable outcomes, a sound resume shortcut, and an exact grammar. */
module HttpTheorems {
  import opened Bytes
  import opened HttpGrammar
  import Messages = HttpMessages

  // ---------------------------------------------------------------- prefix stability

  lemma {:induction false} TokenStable(s: seq<byte>, x: seq<byte>, i: nat, stop: byte)
    requires s <= x && i <= |s| && !TokenEnd(s, i, stop).Partial?
    ensures TokenEnd(x, i, stop) == TokenEnd(s, i, stop)
    decreases |s| - i
  {
    if i == |s| {
    } else if s[i] != stop && IsTchar(s[i]) {
      TokenStable(s, x, i + 1, stop);
    }
  }

  lemma {:induction false} PathStable(s: seq<byte>, x: seq<byte>, i: nat)
    requires s <= x && i <= |s| && !PathEnd(s, i).Partial?
    ensures PathEnd(x, i) == PathEnd(s, i)
    decreases |s| - i
  {
    if i == |s| {
    } else if s[i] != SP && !IsControl(s[i]) {
      PathStable(s, x, i + 1);
    }
  }

  lemma {:induction false} TextStable(s: seq<byte>, x: seq<byte>, i: nat)
    requires s <= x && i <= |s| && !TextEnd(s, i).Partial?
    ensures TextEnd(x, i) == TextEnd(s, i)
    decreases |s| - i
  {
    if i == |s| {
    } else if !EndsText(s[i]) {
      TextStable(s, x, i + 1);
    }
  }

  lemma {:induction false} SpacesStable(s: seq<byte>, x: seq<byte>, i: nat)
    requires s <= x && i <= |s| && SkipSpaces(s, i).Ok?
    ensures SkipSpaces(x, i) == SkipSpaces(s, i)
    decreases |s| - i
  {
    if i == |s| {
    } else if s[i] == SP {
      SpacesStable(s, x, i + 1);
    }
  }

  lemma {:induction false} BlanksStable(s: seq<byte>, x: seq<byte>, i: nat)
    requires s <= x && i <= |s| && SkipBlanks(s, i).Ok?
    ensures SkipBlanks(x, i) == SkipBlanks(s, i)
    decreases |s| - i
  {
    if i == |s| {
    } else if IsBlank(s[i]) {
      BlanksStable(s, x, i + 1);
    }
  }

  lemma {:induction false} TrimStable(s: seq<byte>, x: seq<byte>, start: nat, end: nat)
    requires s <= x && start <= end <= |s|
    ensures TrimEnd(x, start, end) == TrimEnd(s, start, end)
    decreases end
  {
    if start == end {
    } else {
      TrimStable(s, x, start, end - 1);
    }
  }

  lemma {:induction false} HeaderStable(s: seq<byte>, x: seq<byte>, i: nat, first: bool)
    requires s <= x && i < |s| && !HeaderLine(s, i, first).Partial?
    ensures HeaderLine(x, i, first) == HeaderLine(s, i, first)
  {
    var start := i;
    if first || !IsBlank(s[i]) {
      TokenStable(s, x, i, COLON);
      var e := TokenEnd(s, i, COLON);
      if e.Ok? && e.next != i {
        BlanksStable(s, x, e.next + 1);
        start := SkipBlanks(s, e.next + 1).next;
      } else {
        return;
      }
    }
    TextStable(s, x, start);
    if TextEnd(s, start).Ok? {
      TrimStable(s, x, start, TextEnd(s, start).value);
    }
  }

  lemma {:induction false} HeadersStable(s: seq<byte>, x: seq<byte>, i: nat, got: seq<Header>, max: nat)
    requires s <= x && i <= |s| && |got| <= max && !Headers(s, i, got, max).Partial?
    ensures Headers(x, i, got, max) == Headers(s, i, got, max)
    decreases |s| - i
  {
    if s[i] != CR && s[i] != LF && |got| < max {
      HeaderStable(s, x, i, got == []);
      var h := HeaderLine(s, i, got == []);
      if h.Ok? {
        HeadersStable(s, x, h.next, got + [h.value], max);
      }
    }
  }

  lemma {:induction false} RequestLineStable(s: seq<byte>, x: seq<byte>, i: nat)
    requires s <= x && i <= |s| && !RequestLine(s, i).Partial?
    ensures RequestLine(x, i) == RequestLine(s, i)
  {
    hide TokenEnd, PathEnd;
    TokenStable(s, x, i, SP);
    var m := TokenEnd(s, i, SP);
    if m.Ok? {
      SpacesStable(s, x, m.next + 1);
      var p := SkipSpaces(s, m.next + 1).next;
      PathStable(s, x, p);
      var e := PathEnd(s, p);
      if e.Ok? {
        SpacesStable(s, x, e.next + 1);
      }
    }
  }

  /** Once a buffer parses or is refused, no further byte changes the outcome or the spans. */
  lemma {:induction false} PrefixStability(s: seq<byte>, x: seq<byte>, max: nat)
    requires s <= x && !RequestHead(s, max).Partial?
    ensures RequestHead(x, max) == RequestHead(s, max)
  {
    var l := LeadingLine(s);
    if l.Ok? {
      RequestLineStable(s, x, l.next);
      var line := RequestLine(s, l.next);
      if line.Ok? {
        HeadersStable(s, x, line.next, [], max);
      }
    }
  }

  /** Every strict prefix of an n-byte head is incomplete. */
  lemma {:induction false} StrictPrefixesAreIncomplete(s: seq<byte>, max: nat, k: nat)
    requires RequestHead(s, max).Ok? && k < RequestHead(s, max).next
    ensures RequestHead(s[..k], max) == Partial
  {
    if !RequestHead(s[..k], max).Partial? {
      PrefixStability(s[..k], s, max);
    }
  }

  // ---------------------------------------------------------------- the resume shortcut

  lemma {:induction false} ScanStable(s: seq<byte>, x: seq<byte>, i: nat, count: nat)
    requires s <= x && i <= |s| && count <= 1 && !EmptyLineEnd(s, i, count).Partial?
    ensures EmptyLineEnd(x, i, count) == EmptyLineEnd(s, i, count)
    decreases |s| - i
  {
    if s[i] != CR && s[i] != LF {
      ScanStable(s, x, i + 1, 0);
    } else if count == 0 && NewLine(s, i).Ok? {
      ScanStable(s, x, NewLine(s, i).next, 1);
    }
  }

  /** Three bytes before the end of an incomplete scan, the count that was carried no longer matters. */
  lemma {:induction false} RestartScan(s: seq<byte>, len: nat, i: nat, count: nat)
    requires 3 <= len <= |s| && i <= len - 3 && count <= 1
    requires EmptyLineEnd(s[..len], i, count) == Partial
    ensures EmptyLineEnd(s, i, count) == EmptyLineEnd(s, len - 3, 0)
    decreases len - i
  {
    var p := s[..len];
    if s[i] != CR && s[i] != LF {
      if i < len - 3 {
        RestartScan(s, len, i + 1, 0);
      }
    } else if i < len - 3 {
      var next := NewLine(p, i).next;
      assert NewLine(s, i) == NewLine(p, i);
      if next <= len - 3 {
        RestartScan(s, len, next, 1);
      }
    }
  }

  /** When the first `len` bytes scan as incomplete, the restarted scan is the scan from the start. */
  lemma {:induction false} ResumeScan(s: seq<byte>, len: nat)
    requires len <= |s| && EmptyLineEnd(s[..len], 0, 0) == Partial
    ensures EmptyLineEnd(s, if len < 3 then 0 else len - 3, 0) == EmptyLineEnd(s, 0, 0)
  {
    if len >= 3 {
      RestartScan(s, len, 0, 0);
    }
  }

  lemma {:induction false} ScanPastText(s: seq<byte>, i: nat, j: nat, count: nat)
    requires i < j <= |s| && count <= 1 && forall k :: i <= k < j ==> s[k] != CR && s[k] != LF
    ensures EmptyLineEnd(s, i, count) == EmptyLineEnd(s, j, 0)
    decreases j - i
  {
    if i + 1 < j {
      ScanPastText(s, i + 1, j, 0);
    }
  }

  /** No CR and no LF stands in `s[i..j]`. */
  predicate OneLine(s: seq<byte>, i: nat, j: nat)
  {
    j <= |s| && forall k :: i <= k < j ==> s[k] != CR && s[k] != LF
  }

  lemma {:induction false} TokenIsOneLine(s: seq<byte>, i: nat, stop: byte)
    requires i <= |s| && TokenEnd(s, i, stop).Ok? && stop != CR && stop != LF
    ensures OneLine(s, i, TokenEnd(s, i, stop).next + 1)
    decreases |s| - i
  {
    if s[i] != stop {
      TokenIsOneLine(s, i + 1, stop);
    }
  }

  lemma {:induction false} PathIsOneLine(s: seq<byte>, i: nat)
    requires i <= |s| && PathEnd(s, i).Ok?
    ensures OneLine(s, i, PathEnd(s, i).next + 1)
    decreases |s| - i
  {
    if s[i] != SP {
      PathIsOneLine(s, i + 1);
    }
  }

  lemma {:induction false} SpacesAreOneLine(s: seq<byte>, i: nat)
    requires i <= |s| && SkipSpaces(s, i).Ok?
    ensures OneLine(s, i, SkipSpaces(s, i).next)
    decreases |s| - i
  {
    if s[i] == SP {
      SpacesAreOneLine(s, i + 1);
    }
  }

  lemma {:induction false} BlanksAreOneLine(s: seq<byte>, i: nat)
    requires i <= |s| && SkipBlanks(s, i).Ok?
    ensures OneLine(s, i, SkipBlanks(s, i).next)
    decreases |s| - i
  {
    if IsBlank(s[i]) {
      BlanksAreOneLine(s, i + 1);
    }
  }

  lemma {:induction false} TextIsOneLine(s: seq<byte>, i: nat)
    requires i <= |s| && TextEnd(s, i).Ok?
    ensures var t := TextEnd(s, i); OneLine(s, i, t.value) && NewLine(s, t.value) == Ok((), t.next)
    decreases |s| - i
  {
    if !EndsText(s[i]) {
      TextIsOneLine(s, i + 1);
    }
  }

  /** A header line has no line end before the one that closes it. */
  lemma {:induction false} HeaderIsOneLine(s: seq<byte>, i: nat, first: bool) returns (eol: nat)
    requires i < |s| && s[i] != CR && s[i] != LF && HeaderLine(s, i, first).Ok?
    ensures i < eol < |s| && OneLine(s, i, eol) && NewLine(s, eol) == Ok((), HeaderLine(s, i, first).next)
  {
    var start := i;
    if first || !IsBlank(s[i]) {
      TokenIsOneLine(s, i, COLON);
      BlanksAreOneLine(s, TokenEnd(s, i, COLON).next + 1);
      start := SkipBlanks(s, TokenEnd(s, i, COLON).next + 1).next;
    }
    TextIsOneLine(s, start);
    eol := TextEnd(s, start).value;
  }

  lemma {:induction false} ScanHeaders(s: seq<byte>, i: nat, got: seq<Header>, max: nat)
    requires i <= |s| && |got| <= max && Headers(s, i, got, max).Ok?
    ensures EmptyLineEnd(s, i, 1) == Ok((), Headers(s, i, got, max).next)
    decreases |s| - i
  {
    if s[i] != CR && s[i] != LF {
      var eol := HeaderIsOneLine(s, i, got == []);
      ScanPastText(s, i, eol, 1);
      var h := HeaderLine(s, i, got == []);
      ScanHeaders(s, h.next, got + [h.value], max);
    }
  }

  lemma {:induction false} RequestLineIsOneLine(s: seq<byte>, i: nat) returns (eol: nat)
    requires i <= |s| && RequestLine(s, i).Ok?
    ensures i < eol < |s| && OneLine(s, i, eol) && NewLine(s, eol) == Ok((), RequestLine(s, i).next)
  {
    TokenIsOneLine(s, i, SP);
    var m := TokenEnd(s, i, SP).next;
    SpacesAreOneLine(s, m + 1);
    var p := SkipSpaces(s, m + 1).next;
    PathIsOneLine(s, p);
    var e := PathEnd(s, p).next;
    SpacesAreOneLine(s, e + 1);
    eol := SkipSpaces(s, e + 1).next + 8;
  }

  /** A head that parses is scanned as complete, with the same end. */
  lemma {:induction false} ScanFindsTheEnd(s: seq<byte>, max: nat)
    requires RequestHead(s, max).Ok?
    ensures EmptyLineEnd(s, 0, 0) == Ok((), RequestHead(s, max).next)
  {
    var start := LeadingLine(s).next;
    var eol := RequestLineIsOneLine(s, start);
    ScanPastText(s, start, eol, if start == 0 then 0 else 1);
    ScanHeaders(s, RequestLine(s, start).next, [], max);
  }

  /** Passing the length of an earlier, shorter buffer changes nothing for a head that parses. */
  lemma {:induction false} ResumeChangesNothing(s: seq<byte>, max: nat, len: nat)
    requires RequestHead(s, max).Ok? && len < RequestHead(s, max).next
    ensures ParseRequest(s, max, len) == RequestHead(s, max)
  {
    ScanFindsTheEnd(s, max);
    if !EmptyLineEnd(s[..len], 0, 0).Partial? {
      ScanStable(s[..len], s, 0, 0);
    }
    ResumeScan(s, len);
  }

  /** After an incomplete scan the shortcut gives what a scan of the whole buffer would have it give. */
  lemma {:induction false} ResumeIsFullScan(s: seq<byte>, max: nat, len: nat)
    requires 0 < len <= |s| && EmptyLineEnd(s[..len], 0, 0) == Partial
    ensures ParseRequest(s, max, len) == match EmptyLineEnd(s, 0, 0)
                                         case Ok(_, _) => RequestHead(s, max)
                                         case Fail => Fail
                                         case Partial => Partial
  {
    ResumeScan(s, len);
  }

  /** The outcome of the scan that the shortcut makes for an earlier length. */
  function RestartedScan(s: seq<byte>, len: nat): Result<()>
    requires len <= |s|
  {
    EmptyLineEnd(s, if len < 3 then 0 else len - 3, 0)
  }

  /** A head that ends within the first `len` bytes parses from these bytes alone. */
  lemma {:induction false} ShortHeadParses(s: seq<byte>, max: nat, len: nat)
    requires RequestHead(s, max).Ok? && RequestHead(s, max).next <= len <= |s|
    ensures RequestHead(s[..len], max).Ok?
  {
    var h := Messages.AcceptHead(s, max);
    Messages.RenderedHeadParses(s, h, max);
    assert Messages.Render(h) <= s[..len];
    Messages.RenderedHeadParses(s[..len], h, max);
  }

  /**
   When an earlier call on the first `len` bytes returned -2, the shortcut misses no head that is complete
   now.  It agrees with the plain parse exactly if its scan finds an empty line, or refuses just when
   the plain parse does.
   */
  lemma {:induction false} ResumeAgrees(s: seq<byte>, max: nat, len: nat)
    requires 0 < len <= |s| && RequestHead(s[..len], max).Partial?
    ensures RequestHead(s, max).Ok? ==> RestartedScan(s, len).Ok? && ParseRequest(s, max, len) == RequestHead(s, max)
    ensures ParseRequest(s, max, len) == RequestHead(s, max) <==>
              RestartedScan(s, len).Ok? || (RestartedScan(s, len).Fail? <==> RequestHead(s, max).Fail?)
  {
    hide RequestHead;
    if RequestHead(s, max).Ok? {
      if RequestHead(s, max).next <= len {
        ShortHeadParses(s, max, len);
      }
      ResumeChangesNothing(s, max, len);
    }
  }

  /** The same when the first `len` bytes scan as incomplete; then the scan of the whole buffer decides. */
  lemma {:induction false} ResumeAgreesAfterScan(s: seq<byte>, max: nat, len: nat)
    requires 0 < len <= |s| && EmptyLineEnd(s[..len], 0, 0) == Partial
    ensures ParseRequest(s, max, len) == RequestHead(s, max) <==>
              EmptyLineEnd(s, 0, 0).Ok? || (EmptyLineEnd(s, 0, 0).Fail? <==> RequestHead(s, max).Fail?)
  {
    hide RequestHead;
    ResumeIsFullScan(s, max, len);
    if RequestHead(s, max).Ok? {
      ScanFindsTheEnd(s, max);
    }
  }

  /** After -2 for "G", "G@" is refused by the plain parse, but the shortcut still finds it incomplete. */
  lemma {:induction false} ResumeDelaysRefusal()
    ensures var s: seq<byte> := [0x47, 0x40];
            && RequestHead(s[..1], 100) == Partial && RequestHead(s, 100) == Fail && ParseRequest(s, 100, 1) == Partial
  {
    var s: seq<byte> := [0x47, 0x40];
    assert s[..1] == [0x47];
    assert TokenEnd(s[..1], 0, SP) == TokenEnd(s[..1], 1, SP) == Partial;
    assert TokenEnd(s, 0, SP) == TokenEnd(s, 1, SP) == Fail;
    assert EmptyLineEnd(s, 0, 0) == EmptyLineEnd(s, 1, 0) == EmptyLineEnd(s, 2, 0) == Partial;
  }

  /** After -2 for "G / H" CR, "G / H" CR "X" is still incomplete for the plain parse, but the shortcut refuses it. */
  lemma {:induction false} ResumeRefusesEarly()
    ensures var s: seq<byte> := [0x47, SP, 0x2F, SP, 0x48, CR, 0x58];
            && RequestHead(s[..6], 100) == Partial && RequestHead(s, 100) == Partial && ParseRequest(s, 100, 6) == Fail
  {
    var s: seq<byte> := [0x47, SP, 0x2F, SP, 0x48, CR, 0x58];
    ShortVersion(s[..6]);
    ShortVersion(s);
    assert EmptyLineEnd(s, 3, 0) == EmptyLineEnd(s, 4, 0) == EmptyLineEnd(s, 5, 0) == Fail;
  }

  lemma {:induction false} ShortVersion(s: seq<byte>)
    requires 5 <= |s| <= 12 && s[..5] == [0x47, SP, 0x2F, SP, 0x48]
    ensures RequestHead(s, 100) == Partial
  {
    assert s[0] == 0x47 && s[1] == SP && s[2] == 0x2F && s[3] == SP && s[4] == 0x48;
    assert TokenEnd(s, 0, SP) == TokenEnd(s, 1, SP) == Ok((), 1);
    assert SkipSpaces(s, 2) == Ok((), 2);
    assert PathEnd(s, 2) == PathEnd(s, 3) == Ok((), 3);
    assert SkipSpaces(s, 4) == Ok((), 4);
    assert Version(s, 4) == Partial;
  }
}
