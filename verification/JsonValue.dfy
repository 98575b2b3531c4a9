// JSON documents as values.
module JsonValue {
  import opened Wrappers

  // A character stands for one byte of UTF-8; a number is its literal. The
  // members of an object are in the order they are read, or visited.
  datatype Json =
    | Text(s: string)
    | Number(literal: string)
    | Boolean(b: bool)
    | Null
    | Array(items: seq<Json>)
    | Object(members: seq<Member>)

  datatype Member = Member(key: string, value: Json)

  // How deep containers nest.
  function Height(j: Json): nat
    decreases j, 1
  {
    match j
    case Array(items) => 1 + ItemsHeight(items)
    case Object(members) => 1 + MembersHeight(members)
    case _ => 0
  }

  function ItemsHeight(items: seq<Json>): nat
    decreases items, 0
  {
    if items == [] then 0 else Max(Height(items[0]), ItemsHeight(items[1..]))
  }

  function MembersHeight(members: seq<Member>): (h: nat)
    ensures forall m | m in members :: Height(m.value) <= h
    decreases members, 0
  {
    if members == [] then 0
    else
      assert members == [members[0]] + members[1..];
      Max(Height(members[0].value), MembersHeight(members[1..]))
  }

  function Get(members: seq<Member>, key: string): (r: Option<Json>)
    ensures r.Some? ==> exists m :: m in members && m.key == key && m.value == r.value
    ensures r.None? ==> forall m | m in members :: m.key != key
  {
    if members == [] then None
    else if members[0].key == key then
      assert members[0] in members;
      Some(members[0].value)
    else
      assert members == [members[0]] + members[1..];
      Get(members[1..], key)
  }
}
