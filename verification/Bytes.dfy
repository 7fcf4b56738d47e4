/** Bytes, the character codes the parsers look for, and the C library's block copy. */
module Bytes {

  datatype Option<+T> = None | Some(value: T)

  type byte = b: int | 0 <= b < 256

  const NUL: byte := 0
  const HT: byte := 9
  const LF: byte := 10
  const CR: byte := 13
  const SP: byte := 32

  /** The size of `size_t` and `uint64_t`: their arithmetic is modulo this number. */
  const TWO_TO_THE_64 := 0x1_0000_0000_0000_0000

  /** Addition and subtraction of `size_t` and `uint64_t` values. */
  function Add64(a: nat, b: nat): nat { (a + b) % TWO_TO_THE_64 }

  function Sub64(a: nat, b: nat): nat { (a - b) % TWO_TO_THE_64 }

  const INT_MAX := 0x7FFF_FFFF
  const INT_MIN := -0x8000_0000

  /** The value of a hexadecimal digit, or -1. */
  function DecodeHex(b: byte): (v: int)
    ensures -1 <= v < 16
  {
    if 0x30 <= b <= 0x39 then b - 0x30
    else if 0x41 <= b <= 0x46 then b - 0x41 + 10
    else if 0x61 <= b <= 0x66 then b - 0x61 + 10
    else -1
  }

  /** `memmove(a + dst, a + src, n)` when the destination does not lie after the source. */
  method MoveDown(a: array<byte>, dst: nat, src: nat, n: nat)
    requires dst <= src && src + n <= a.Length
    modifies a
    ensures forall k :: dst <= k < dst + n ==> a[k] == old(a[k + (src - dst)])
    ensures forall k :: 0 <= k < a.Length && !(dst <= k < dst + n) ==> a[k] == old(a[k])
  {
    var i := 0;
    while i < n
      invariant 0 <= i <= n
      invariant forall k :: dst <= k < dst + i ==> a[k] == old(a[k + (src - dst)])
      invariant forall k :: 0 <= k < dst || dst + i <= k < a.Length ==> a[k] == old(a[k])
    {
      a[dst + i] := a[src + i];
      i := i + 1;
    }
  }

  /** Names the place that a fact of `At` is wanted for; it keeps the prover from using all of them. */
  predicate Place(k: int) { true }

  /** `w` stands in `s` at `i`. */
  ghost predicate At<T>(s: seq<T>, i: nat, w: seq<T>)
  {
    i + |w| <= |s| && forall k {:trigger Place(k)} :: Place(k) && 0 <= k < |w| ==> s[i + k] == w[k]
  }

  lemma {:induction false} AtElements<T>(s: seq<T>, i: nat, w: seq<T>)
    requires At(s, i, w)
    ensures forall k :: i <= k < i + |w| ==> s[k] == w[k - i]
  {
    forall k | i <= k < i + |w| ensures s[k] == w[k - i] {
      assert Place(k - i);
    }
  }

  lemma {:induction false} AtSlice<T>(s: seq<T>, i: nat, n: nat)
    requires i + n <= |s|
    ensures At(s, i, s[i..i + n])
  {
  }

  lemma {:induction false} AtPrefix<T>(s: seq<T>, w: seq<T>)
    ensures At(s, 0, w) <==> w <= s
  {
    if w <= s {
      assert forall k :: 0 <= k < |w| ==> s[k] == w[k];
    }
    if At(s, 0, w) {
      AtElements(s, 0, w);
    }
  }

  lemma {:induction false} AtParts<T>(s: seq<T>, i: nat, a: seq<T>, b: seq<T>)
    ensures At(s, i, a + b) <==> At(s, i, a) && At(s, i + |a|, b)
  {
    if At(s, i, a + b) {
      forall k | Place(k) && 0 <= k < |b| ensures s[i + |a| + k] == b[k] {
        assert Place(|a| + k);
      }
    }
    if At(s, i, a) && At(s, i + |a|, b) {
      forall k | Place(k) && 0 <= k < |a + b| ensures s[i + k] == (a + b)[k] {
        assert Place(k - |a|);
      }
    }
  }
}
