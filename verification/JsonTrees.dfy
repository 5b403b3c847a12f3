/** JSON trees. Numbers, strings and booleans are leaves; `Null` is JSON null and Python's None. */
module JsonTrees {
  datatype Json =
    | Null
    | Leaf(value: nat)
    | Obj(fields: map<nat, Json>)
    | Arr(items: seq<Json>)
}
