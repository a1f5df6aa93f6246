/** JSON values as `serde_json` hands them over: numbers keep whether they were written as integers. */
module Json {
  import opened Text
  import opened Widths
  import opened Wrappers

  datatype Json =
    | Null
    | Bool(b: bool)
    | Int(i: int)
    | Float(r: real)
    | Str(s: string)
    | Arr(items: seq<Json>)
    | Obj(fields: map<string, Json>)

  /** JSON text to a value, or nothing. Only one law of the syntax is used: the empty text is no document. */
  type Parser = p: string -> Option<Json> | p("") == None witness (s: string) => None

  /** `Value::get` with a string key. */
  function Get(v: Json, name: string): Option<Json> {
    if v.Obj? && name in v.fields then Some(v.fields[name]) else None
  }

  /** An array index inside a pointer: decimal digits without a leading zero. */
  predicate IsIndex(token: string) {
    token != "" && AllDigits(token) && (|token| > 1 ==> token[0] != '0')
  }

  /** One step of `Value::pointer`. */
  function Child(v: Json, token: string): Option<Json> {
    if v.Arr? && IsIndex(token) && NumberOf(token) < |v.items| then Some(v.items[NumberOf(token)])
    else Get(v, token)
  }

  /** `Value::pointer`, its tokens already split. */
  function Pointer(v: Json, tokens: seq<string>): Option<Json> {
    if tokens == [] then Some(v)
    else match Child(v, tokens[0])
      case None => None
      case Some(child) => Pointer(child, tokens[1..])
  }

  function AsStr(v: Option<Json>): Option<string> {
    if v.Some? && v.value.Str? then Some(v.value.s) else None
  }

  function AsArray(v: Option<Json>): Option<seq<Json>> {
    if v.Some? && v.value.Arr? then Some(v.value.items) else None
  }

  /** `as_u64`, absent counts read as zero. */
  function CountOr0(v: Option<Json>): U64
  {
    if v.Some? && v.value.Int? && 0 <= v.value.i <= U64_MAX then v.value.i else 0
  }

  function AsNumber(v: Json): Option<real> {
    match v
    case Int(i) => Some(i as real)
    case Float(r) => Some(r)
    case _ => None
  }

  /** A word that is no array index finds the same thing by pointer and by key. */
  lemma {:induction false} PointerOfKeys(v: Json, a: string, b: string)
    requires !IsIndex(a) && !IsIndex(b)
    ensures Pointer(v, [a]) == Get(v, a)
    ensures Pointer(v, [a, b]) == match Get(v, a)
                                  case None => None
                                  case Some(inner) => Get(inner, b)
  {
    assert [a, b][1..] == [b] && [b][1..] == [] && [a][1..] == [];
    assert Child(v, a) == Get(v, a);
    if Get(v, a).Some? {
      assert Pointer(Get(v, a).value, [b]) == Get(Get(v, a).value, b);
    }
  }
}
