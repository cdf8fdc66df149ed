/** JSON values as JavaScript sees them, and packages/core/src/extract/json.ts. */
module Json {
  import opened Prelude

  const MAX_WALK_DEPTH := 12
  const MAX_NODES := 2000

  /** The fields of an object in the order `Object.values` and `Object.entries` give them. */
  datatype Json =
    | Null
    | Bool(b: bool)
    | Number(text: string)
    | Text(s: string)
    | Array(items: seq<Json>)
    | Object(fields: seq<Field>)
  datatype Field = Field(key: string, value: Json)

  /** `node[name]` of an own property. */
  function Lookup(fields: seq<Field>, name: string): Option<Json> {
    if fields == [] then None
    else if fields[0].key == name then Some(fields[0].value)
    else Lookup(fields[1..], name)
  }

  /** No object anywhere in the value has a key twice. */
  predicate WellFormed(j: Json) {
    match j
    case Array(items) => forall k :: 0 <= k < |items| ==> WellFormed(items[k])
    case Object(fields) =>
      && (forall k :: 0 <= k < |fields| ==> WellFormed(fields[k].value))
      && (forall a, b :: 0 <= a < b < |fields| ==> fields[a].key != fields[b].key)
    case _ => true
  }

  lemma {:induction false} LookupAt(fields: seq<Field>, k: nat)
    requires k < |fields| && forall a, b :: 0 <= a < b < |fields| ==> fields[a].key != fields[b].key
    ensures Lookup(fields, fields[k].key) == Some(fields[k].value)
  {
    if k > 0 {
      LookupAt(fields[1..], k - 1);
    }
  }

  lemma {:induction false} LookupFinds(fields: seq<Field>, name: string)
    requires Lookup(fields, name).Some?
    ensures exists k :: 0 <= k < |fields| && fields[k].key == name && fields[k].value == Lookup(fields, name).value
  {
    if fields[0].key != name {
      LookupFinds(fields[1..], name);
      var k :| && 0 <= k < |fields| - 1 && fields[1..][k].key == name
               && fields[1..][k].value == Lookup(fields, name).value;
      assert fields[k + 1].key == name;
    }
  }

  // ----- Paths -----

  datatype Step = Key(name: string) | At(index: nat)

  function Child(j: Json, step: Step): Option<Json> {
    match step
    case Key(name) => if j.Object? then Lookup(j.fields, name) else None
    case At(index) => if j.Array? && index < |j.items| then Some(j.items[index]) else None
  }

  /** The value a path of keys and indices leads to. */
  function Resolve(j: Json, path: seq<Step>): Option<Json>
    decreases |path|
  {
    if path == [] then Some(j)
    else
      var child := Child(j, path[0]);
      if child.None? then None else Resolve(child.value, path[1..])
  }
}
