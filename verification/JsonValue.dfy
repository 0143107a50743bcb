/**
 `serde_json::Value`. An object is its list of members in construction order, with distinct
 keys; a number is the text serde_json prints for it.
 */
module JsonValue {
  datatype Json =
    | Null
    | Bool(b: bool)
    | Number(text: string)
    | String(s: string)
    | Array(items: seq<Json>)
    | Object(members: seq<Member>)

  datatype Member = Member(key: string, value: Json)

  predicate HasKey(members: seq<Member>, key: string) {
    exists i :: 0 <= i < |members| && members[i].key == key
  }

  function Lookup(members: seq<Member>, key: string): (v: Json)
    requires HasKey(members, key)
    ensures exists i :: 0 <= i < |members| && members[i] == Member(key, v)
  {
    if members[0].key == key then
      assert members[0] == Member(key, members[0].value);
      members[0].value
    else
      var v := Lookup(members[1..], key);
      assert forall i :: 0 <= i < |members[1..]| ==> members[1..][i] == members[i + 1];
      v
  }

  predicate DistinctKeys(members: seq<Member>) {
    forall i, j :: 0 <= i < j < |members| ==> members[i].key != members[j].key
  }

  lemma LookupIsUnique(members: seq<Member>, i: nat)
    requires DistinctKeys(members) && i < |members|
    ensures HasKey(members, members[i].key) && Lookup(members, members[i].key) == members[i].value
  {
  }
}
