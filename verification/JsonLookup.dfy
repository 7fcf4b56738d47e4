/** Members by name (`get_object_item`). */
module JsonLookup {
  import opened Bytes
  import opened JsonTree

  /** `get_object_item`: the value of the first member of that name; other values have no members. */
  function Lookup(t: Json, name: seq<byte>): Option<Json>
  {
    if t.Object? then FirstNamed(t.members, name, 0) else None
  }

  function FirstNamed(members: seq<Member>, name: seq<byte>, k: nat): Option<Json>
    requires k <= |members|
    decreases |members| - k
  {
    if k == |members| then None
    else if members[k].key == name then Some(members[k].value)
    else FirstNamed(members, name, k + 1)
  }

  predicate DistinctKeys(members: seq<Member>)
  {
    forall j, k :: 0 <= j < k < |members| ==> members[j].key != members[k].key
  }

  /** With distinct keys the order of the members does not matter. */
  lemma {:induction false} DistinctLookup(members: seq<Member>, name: seq<byte>, k: nat, v: Json)
    requires DistinctKeys(members) && k <= |members|
    ensures FirstNamed(members, name, k) == Some(v) <==> Member(name, v) in members[k..]
    decreases |members| - k
  {
    if k == |members| {
    } else {
      DistinctLookup(members, name, k + 1, v);
      assert members[k..] == [members[k]] + members[k + 1..];
      if members[k].key == name {
        forall m | m in members[k + 1..] ensures m.key != name {
          var i :| 0 <= i < |members[k + 1..]| && members[k + 1..][i] == m;
          assert members[k + 1 + i] == m;
        }
      }
    }
  }
}
