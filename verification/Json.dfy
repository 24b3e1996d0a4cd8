/** JSON values as `json.loads` delivers them.  A dict keeps its insertion order. */
module Json {
  datatype Json =
    | Null
    | Bool(b: bool)
    | Int(i: int)
    | Float(finite: bool, r: real)
    | Str(s: string)
    | Arr(items: seq<Json>)
    | Obj(fields: seq<Field>)

  datatype Field = Field(key: string, value: Json)

  /** The value under a key; a JSON null and a missing key both read as None in Python. */
  function Get(fields: seq<Field>, key: string): Json {
    if fields == [] then Null else if fields[0].key == key then fields[0].value else Get(fields[1..], key)
  }

  /** A key is present, whatever its value. */
  predicate Has(fields: seq<Field>, key: string) {
    exists i | 0 <= i < |fields| :: fields[i].key == key
  }

  lemma {:induction false} GetAt(fields: seq<Field>, i: nat, key: string)
    requires i < |fields| && fields[i].key == key
    requires forall j | 0 <= j < i :: fields[j].key != key
    ensures Get(fields, key) == fields[i].value
  {
    if i > 0 {
      assert fields[0].key != key;
      GetAt(fields[1..], i - 1, key);
    }
  }
}
