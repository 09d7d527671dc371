/**
 * JSON request bodies as the server receives them, before validation, and the
 * field readers that the object schemas of `src/shared/types.ts` apply to them.
 * A field reader fails (None) when the key is missing or holds a value of the
 * wrong JSON type.
 */
module Json {
  import opened Wrappers

  datatype Value =
    | Null
    | Bool(b: bool)
    | Num(n: real)
    | Str(s: string)
    | Arr(items: seq<Value>)
    | Obj(fields: map<string, Value>)

  /** `z.string()` on one key of an object. */
  function StrField(fields: map<string, Value>, key: string): (r: Option<string>)
    ensures r.Some? <==> key in fields && fields[key].Str?
    ensures r.Some? ==> fields[key] == Str(r.value)
  {
    if key in fields && fields[key].Str? then Some(fields[key].s) else None
  }

  /** `z.number()` on one key of an object. */
  function NumField(fields: map<string, Value>, key: string): (r: Option<real>)
    ensures r.Some? <==> key in fields && fields[key].Num?
    ensures r.Some? ==> fields[key] == Num(r.value)
  {
    if key in fields && fields[key].Num? then Some(fields[key].n) else None
  }

  /** `z.boolean()` on one key of an object. */
  function BoolField(fields: map<string, Value>, key: string): (r: Option<bool>)
    ensures r.Some? <==> key in fields && fields[key].Bool?
    ensures r.Some? ==> fields[key] == Bool(r.value)
  {
    if key in fields && fields[key].Bool? then Some(fields[key].b) else None
  }

  /**
   * `z.string().optional()` on one key: an absent key is accepted as
   * `Some(None)`, a string as `Some(Some(s))`, anything else (null included)
   * is rejected as `None`.
   */
  function OptionalStrField(fields: map<string, Value>, key: string): (r: Option<Option<string>>)
    ensures r == Some(None) <==> key !in fields
    ensures (r.Some? && r.value.Some?) <==> key in fields && fields[key].Str?
    ensures r.Some? && r.value.Some? ==> fields[key] == Str(r.value.value)
  {
    if key !in fields then Some(None)
    else if fields[key].Str? then Some(Some(fields[key].s))
    else None
  }
}
