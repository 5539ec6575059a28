/** JSON values: a number is given by its printed form, an object by its fields in iteration order. */
module JsonTree {
  import opened Wrappers

  datatype Json = Null | Bool(flag: bool) | Number(printed: string) | Str(text: string)
                | Arr(entries: seq<Json>) | Obj(fields: seq<Field>)

  datatype Field = Field(key: string, value: Json)

  function Get(fields: seq<Field>, key: string): Option<Json>
  {
    if fields == [] then None
    else if fields[0].key == key then Some(fields[0].value)
    else Get(fields[1..], key)
  }

  /** A key is read from the first field that has it. */
  lemma {:induction false} FirstFieldIsRead(fields: seq<Field>, k: nat)
    requires k < |fields| && forall j :: 0 <= j < k ==> fields[j].key != fields[k].key
    ensures Get(fields, fields[k].key) == Some(fields[k].value)
  {
    if k > 0 {
      FirstFieldIsRead(fields[1..], k - 1);
    }
  }

  lemma {:induction false} FieldOf(fields: seq<Field>, key: string)
    ensures Get(fields, key).Some? <==> exists k :: 0 <= k < |fields| && fields[k].key == key
    ensures Get(fields, key).Some? ==> exists k :: 0 <= k < |fields| && fields[k] == Field(key, Get(fields, key).value)
  {
    if fields != [] {
      assert fields == [fields[0]] + fields[1..];
      FieldOf(fields[1..], key);
      if fields[0].key != key && Get(fields, key).Some? {
        var k :| 0 <= k < |fields| - 1 && fields[1..][k] == Field(key, Get(fields, key).value);
        assert fields[k + 1] == fields[1..][k];
      }
      if k :| 0 < k < |fields| && fields[k].key == key {
        assert fields[1..][k - 1].key == key;
      }
    }
  }

  /** The member of an object; other values have none. */
  function Member(value: Json, key: string): Option<Json>
  {
    if value.Obj? then Get(value.fields, key) else None
  }

  /** Members of members; no key on the way may be an array index. */
  function Pointer(value: Json, path: seq<string>): Option<Json>
    decreases |path|
  {
    if path == [] then Some(value)
    else
      var m := Member(value, path[0]);
      if m.None? then None else Pointer(m.value, path[1..])
  }

  function AsBool(value: Option<Json>): Option<bool>
  {
    if value.Some? && value.value.Bool? then Some(value.value.flag) else None
  }

  function AsArray(value: Option<Json>): Option<seq<Json>>
  {
    if value.Some? && value.value.Arr? then Some(value.value.entries) else None
  }

  function AsObject(value: Option<Json>): Option<seq<Field>>
  {
    if value.Some? && value.value.Obj? then Some(value.value.fields) else None
  }

  predicate AllDigits(s: string)
  {
    forall i :: 0 <= i < |s| ==> '0' <= s[i] <= '9'
  }

  function DigitsValue(s: string): nat
    requires AllDigits(s)
  {
    if s == "" then 0
    else 10 * DigitsValue(s[..|s| - 1]) + (s[|s| - 1] as int - '0' as int)
  }

  /** A whole number that fits into `limit`; fractions, exponents and signs are not whole. */
  function AsUnsigned(value: Option<Json>, limit: nat): (r: Option<nat>)
    ensures r.Some? ==> r.value <= limit
  {
    if value.Some? && value.value.Number? then
      var printed := value.value.printed;
      if printed != "" && AllDigits(printed) && DigitsValue(printed) <= limit then Some(DigitsValue(printed)) else None
    else None
  }
}
