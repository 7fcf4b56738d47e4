/**
 What `cJSON_Compare` decides, case-sensitively, about two trees; on trees with int numbers and
 distinct keys that is equality with objects read as maps.
 */
module JsonCompare {
  import opened Bytes
  import opened JsonTree
  import opened JsonLookup

  // ---------------------------------------------------------------- what the code decides

  function Abs(x: real): real { if x < 0.0 then -x else x }

  const DBL_EPSILON: real := 1.0 / 4503599627370496.0

  /** `compare_double`. */
  predicate CompareDouble(a: real, b: real)
  {
    Abs(a - b) <= (if Abs(a) > Abs(b) then Abs(a) else Abs(b)) * DBL_EPSILON
  }

  /** `cJSON_Compare` of two trees that share no item. */
  predicate Same(a: Json, b: Json)
    decreases Nesting(a) + Nesting(b), 0
  {
    match a
    case Null => b.Null?
    case False => b.False?
    case True => b.True?
    case Number(v) => b.Number? && CompareDouble(v, b.value)
    case String(text) => b.String? && text == b.text
    case Array(items) => b.Array? && SameItems(items, b.items, 0)
    case Object(members) => b.Object? && AllFound(members, b.members, 0) && AllFound(b.members, members, 0)
  }

  /** The loop over two arrays, from `k` on. */
  predicate SameItems(xs: seq<Json>, ys: seq<Json>, k: nat)
    requires k <= |xs| && k <= |ys|
    decreases ItemsNesting(xs, k) + ItemsNesting(ys, k), |xs| - k + 1
  {
    if k == |xs| || k == |ys| then |xs| == |ys|
    else Same(xs[k], ys[k]) && SameItems(xs, ys, k + 1)
  }

  /** The loop that looks up each member, from `k` on, in the other object. */
  predicate AllFound(members: seq<Member>, others: seq<Member>, k: nat)
    requires k <= |members|
    decreases MembersNesting(members, k) + MembersNesting(others, 0), |members| - k + 1
  {
    k == |members| ||
    (FoundNesting(others, members[k].key, 0);
     match FirstNamed(others, members[k].key, 0)
     case None => false
     case Some(v) => Same(members[k].value, v) && AllFound(members, others, k + 1))
  }

  lemma {:induction false} FoundNesting(members: seq<Member>, name: seq<byte>, k: nat)
    requires k <= |members|
    ensures FirstNamed(members, name, k).Some?
            ==> Nesting(FirstNamed(members, name, k).value) <= MembersNesting(members, k)
    decreases |members| - k
  {
    if k == |members| {
    } else {
      FoundNesting(members, name, k + 1);
    }
  }

  // ---------------------------------------------------------------- equality with objects read as maps

  datatype Canon =
    | CanonWord(word: Json)
    | CanonNumber(value: real)
    | CanonString(text: seq<byte>)
    | CanonArray(items: seq<Canon>)
    | CanonObject(members: map<seq<byte>, Canon>)

  function Canonical(t: Json): Canon
    decreases t, 0
  {
    match t
    case Number(v) => CanonNumber(v)
    case String(text) => CanonString(text)
    case Array(items) => CanonArray(CanonItems(items, 0))
    case Object(members) => CanonObject(CanonMembers(members, 0))
    case _ => CanonWord(t)
  }

  function CanonItems(items: seq<Json>, k: nat): (r: seq<Canon>)
    requires k <= |items|
    ensures |r| == |items| - k
    decreases items, |items| - k
  {
    if k == |items| then [] else [Canonical(items[k])] + CanonItems(items, k + 1)
  }

  function CanonMembers(members: seq<Member>, k: nat): map<seq<byte>, Canon>
    requires k <= |members|
    decreases members, |members| - k
  {
    if k == |members| then map[]
    else CanonMembers(members, k + 1)[members[k].key := Canonical(members[k].value)]
  }

  /** All numbers are ints and no object has a key twice. */
  predicate Plain(t: Json)
  {
    match t
    case Number(v) => v == v.Floor as real && INT_MIN <= v.Floor <= INT_MAX
    case Array(items) => forall k :: 0 <= k < |items| ==> Plain(items[k])
    case Object(members) => DistinctKeys(members) && forall k :: 0 <= k < |members| ==> PlainMember(members[k])
    case _ => true
  }

  predicate PlainMember(m: Member) { Plain(m.value) }

  /** No two ints are close enough to pass for equal. */
  lemma {:induction false} IntsCompareExactly(a: int, b: int)
    requires INT_MIN <= a <= INT_MAX && INT_MIN <= b <= INT_MAX
    ensures CompareDouble(a as real, b as real) <==> a == b
  {
    var x, y := a as real, b as real;
    var m := if Abs(x) > Abs(y) then Abs(x) else Abs(y);
    assert 0.0 <= m <= 2147483648.0;
    assert m * DBL_EPSILON == m / 4503599627370496.0 < 1.0;
    assert a != b ==> Abs(x - y) >= 1.0;
  }

  lemma {:induction false} CanonLookup(members: seq<Member>, name: seq<byte>, k: nat)
    requires k <= |members|
    ensures match FirstNamed(members, name, k)
            case None => name !in CanonMembers(members, k)
            case Some(v) => name in CanonMembers(members, k) && CanonMembers(members, k)[name] == Canonical(v)
    decreases |members| - k
  {
    if k == |members| {
    } else {
      CanonLookup(members, name, k + 1);
    }
  }

  lemma {:induction false} FoundIsPlain(members: seq<Member>, name: seq<byte>, k: nat)
    requires k <= |members| && forall i :: 0 <= i < |members| ==> PlainMember(members[i])
    ensures FirstNamed(members, name, k).Some? ==> Plain(FirstNamed(members, name, k).value)
    decreases |members| - k
  {
    if k == |members| {
    } else {
      assert PlainMember(members[k]);
      FoundIsPlain(members, name, k + 1);
    }
  }

  lemma {:induction false} SameItemsCanonical(xs: seq<Json>, ys: seq<Json>, k: nat)
    requires k <= |xs| && k <= |ys| && (forall i :: 0 <= i < |xs| ==> Plain(xs[i]))
             && (forall i :: 0 <= i < |ys| ==> Plain(ys[i]))
    ensures SameItems(xs, ys, k) <==> CanonItems(xs, k) == CanonItems(ys, k)
    decreases ItemsNesting(xs, k) + ItemsNesting(ys, k), |xs| - k + 1
  {
    if k == |xs| {
    } else if k < |ys| {
      CompareIsEquality(xs[k], ys[k]);
      SameItemsCanonical(xs, ys, k + 1);
      var x, y := CanonItems(xs, k + 1), CanonItems(ys, k + 1);
      assert ([Canonical(xs[k])] + x)[1..] == x && ([Canonical(ys[k])] + y)[1..] == y;
    }
  }

  /** All members from `k` on are found exactly if the one map agrees with the other on their keys. */
  lemma {:induction false} AllFoundCanonical(members: seq<Member>, others: seq<Member>, k: nat)
    requires k <= |members|
    requires (forall i :: 0 <= i < |members| ==> PlainMember(members[i]))
             && (forall i :: 0 <= i < |others| ==> PlainMember(others[i]))
    ensures AllFound(members, others, k) <==>
            forall i :: k <= i < |members| ==>
              && members[i].key in CanonMembers(others, 0)
              && CanonMembers(others, 0)[members[i].key] == Canonical(members[i].value)
    decreases MembersNesting(members, k) + MembersNesting(others, 0), |members| - k + 1
  {
    if k == |members| {
    } else {
      var name := members[k].key;
      FoundNesting(others, name, 0);
      FoundIsPlain(others, name, 0);
      CanonLookup(others, name, 0);
      assert PlainMember(members[k]);
      if FirstNamed(others, name, 0).Some? {
        CompareIsEquality(members[k].value, FirstNamed(others, name, 0).value);
      }
      AllFoundCanonical(members, others, k + 1);
    }
  }

  lemma {:induction false} MembersAgree(members: seq<Member>, i: nat)
    requires DistinctKeys(members) && i < |members|
    ensures members[i].key in CanonMembers(members, 0)
    ensures CanonMembers(members, 0)[members[i].key] == Canonical(members[i].value)
  {
    CanonLookup(members, members[i].key, 0);
    DistinctLookup(members, members[i].key, 0, members[i].value);
    assert members[0..] == members && Member(members[i].key, members[i].value) == members[i];
  }

  lemma {:induction false} KeyOfMap(members: seq<Member>, name: seq<byte>, k: nat) returns (i: nat)
    requires k <= |members| && name in CanonMembers(members, k)
    ensures k <= i < |members| && members[i].key == name
    decreases |members| - k
  {
    if members[k].key == name {
      i := k;
    } else {
      i := KeyOfMap(members, name, k + 1);
    }
  }

  lemma {:induction false} MapsAgree(xs: seq<Member>, ys: seq<Member>)
    requires DistinctKeys(xs) && DistinctKeys(ys)
    ensures CanonMembers(xs, 0) == CanonMembers(ys, 0) <==>
            && (forall i :: 0 <= i < |xs| ==>
                 xs[i].key in CanonMembers(ys, 0) && CanonMembers(ys, 0)[xs[i].key] == Canonical(xs[i].value))
            && (forall i :: 0 <= i < |ys| ==>
                 ys[i].key in CanonMembers(xs, 0) && CanonMembers(xs, 0)[ys[i].key] == Canonical(ys[i].value))
  {
    hide Canonical, CanonMembers;
    var x, y := CanonMembers(xs, 0), CanonMembers(ys, 0);
    forall i | 0 <= i < |xs| ensures xs[i].key in x && x[xs[i].key] == Canonical(xs[i].value) { MembersAgree(xs, i); }
    forall i | 0 <= i < |ys| ensures ys[i].key in y && y[ys[i].key] == Canonical(ys[i].value) { MembersAgree(ys, i); }
    forall name | name in x ensures exists i :: 0 <= i < |xs| && xs[i].key == name { var i := KeyOfMap(xs, name, 0); }
    forall name | name in y ensures exists i :: 0 <= i < |ys| && ys[i].key == name { var i := KeyOfMap(ys, name, 0); }
  }

  /** Case-sensitive comparison of such trees is equality with objects read as maps. */
  lemma {:induction false} CompareIsEquality(a: Json, b: Json)
    requires Plain(a) && Plain(b)
    ensures Same(a, b) <==> Canonical(a) == Canonical(b)
    decreases Nesting(a) + Nesting(b), 0
  {
    if a.Number? && b.Number? {
      IntsCompareExactly(a.value.Floor, b.value.Floor);
    } else if a.Array? && b.Array? {
      SameItemsCanonical(a.items, b.items, 0);
    } else if a.Object? && b.Object? {
      AllFoundCanonical(a.members, b.members, 0);
      AllFoundCanonical(b.members, a.members, 0);
      MapsAgree(a.members, b.members);
    }
  }

  // ---------------------------------------------------------------- comparing a value with itself

  /** No member before the `k`-th has its key. */
  predicate IsFirst(members: seq<Member>, k: nat)
    requires k < |members|
  {
    forall j :: 0 <= j < k ==> members[j].key != members[k].key
  }

  /** The member is the same as the first of its name. */
  predicate FoundSame(m: Member, others: seq<Member>)
  {
    FirstNamed(others, m.key, 0).Some? && Same(m.value, FirstNamed(others, m.key, 0).value)
  }

  /** The first member of each name agrees with itself, and the others of that name are the same as it. */
  predicate FirstsAgree(t: Json)
    decreases t, 0
  {
    match t
    case Array(items) => forall k :: 0 <= k < |items| ==> FirstsAgree(items[k])
    case Object(members) => forall k :: 0 <= k < |members| ==> AgreesWithFirst(members, k)
    case _ => true
  }

  predicate AgreesWithFirst(members: seq<Member>, k: nat)
    requires k < |members|
    decreases members, 0
  {
    if IsFirst(members, k) then FirstsAgree(members[k].value)
    else FoundSame(members[k], members)
  }

  lemma {:induction false} FirstIsFound(members: seq<Member>, i: nat, k: nat)
    requires i <= k < |members| && IsFirst(members, k)
    ensures FirstNamed(members, members[k].key, i) == Some(members[k].value)
    decreases k - i
  {
    if i == k {
    } else {
      FirstIsFound(members, i + 1, k);
    }
  }

  lemma {:induction false} OwnNameFound(members: seq<Member>, i: nat, k: nat)
    requires i <= k < |members|
    ensures FirstNamed(members, members[k].key, i).Some?
    decreases k - i
  {
    if i == k {
    } else {
      OwnNameFound(members, i + 1, k);
    }
  }

  /** The loop over one object's members is about each of them. */
  lemma {:induction false} AllFoundIs(members: seq<Member>, others: seq<Member>, k: nat)
    requires k <= |members|
    ensures AllFound(members, others, k) <==> forall i :: k <= i < |members| ==> FoundSame(members[i], others)
    decreases |members| - k
  {
    hide Same;
    if k == |members| {
    } else {
      AllFoundIs(members, others, k + 1);
    }
  }

  lemma {:induction false} SameItemsIs(items: seq<Json>, k: nat)
    requires k <= |items|
    ensures SameItems(items, items, k) <==> forall i :: k <= i < |items| ==> Same(items[i], items[i])
    decreases |items| - k
  {
    hide Same;
    if k == |items| {
    } else {
      SameItemsIs(items, k + 1);
    }
  }

  /** A value compares equal to a copy of itself if and only if its repeated keys agree. */
  lemma {:induction false} SameAsItself(t: Json)
    ensures Same(t, t) <==> FirstsAgree(t)
    decreases t
  {
    match t
    case Array(items) =>
      forall k | 0 <= k < |items| ensures Same(items[k], items[k]) <==> FirstsAgree(items[k]) {
        SameAsItself(items[k]);
      }
      SameItemsIs(items, 0);
    case Object(members) =>
      forall k | 0 <= k < |members| ensures FoundSame(members[k], members) <==> AgreesWithFirst(members, k) {
        OwnNameFound(members, 0, k);
        if IsFirst(members, k) {
          FirstIsFound(members, 0, k);
          SameAsItself(members[k].value);
        }
      }
      AllFoundIs(members, members, 0);
    case _ =>
  }

  /** No object in the value has a key twice. */
  predicate KeysDistinct(t: Json)
  {
    match t
    case Array(items) => forall k :: 0 <= k < |items| ==> KeysDistinct(items[k])
    case Object(members) => DistinctKeys(members) && forall k :: 0 <= k < |members| ==> MemberKeysDistinct(members[k])
    case _ => true
  }

  predicate MemberKeysDistinct(m: Member) { KeysDistinct(m.value) }

  lemma {:induction false} DistinctAgree(t: Json)
    requires KeysDistinct(t)
    ensures FirstsAgree(t)
  {
    match t
    case Array(items) =>
      forall k | 0 <= k < |items| ensures FirstsAgree(items[k]) {
        DistinctAgree(items[k]);
      }
    case Object(members) =>
      forall k | 0 <= k < |members| ensures AgreesWithFirst(members, k) {
        assert MemberKeysDistinct(members[k]) && IsFirst(members, k);
        DistinctAgree(members[k].value);
      }
    case _ =>
  }

  lemma {:induction false} PlainIsDistinct(t: Json)
    requires Plain(t)
    ensures KeysDistinct(t)
  {
    match t
    case Array(items) =>
      forall k | 0 <= k < |items| ensures KeysDistinct(items[k]) {
        PlainIsDistinct(items[k]);
      }
    case Object(members) =>
      forall k | 0 <= k < |members| ensures MemberKeysDistinct(members[k]) {
        assert PlainMember(members[k]);
        PlainIsDistinct(members[k].value);
      }
    case _ =>
  }

  /** The object with the key a twice, for 1 and for 2, does not compare equal to its copy. */
  lemma {:induction false} RepeatedKeyDiffers()
    ensures var t := Object([Member([0x61], Number(1.0)), Member([0x61], Number(2.0))]); !FirstsAgree(t) && !Same(t, t)
  {
    var members := [Member([0x61], Number(1.0)), Member([0x61], Number(2.0))];
    assert FirstNamed(members, [0x61], 0) == Some(Number(1.0)) && members[0].key == members[1].key;
    assert !CompareDouble(2.0, 1.0);
    assert !IsFirst(members, 1) && !AgreesWithFirst(members, 1);
    SameAsItself(Object(members));
  }
}
