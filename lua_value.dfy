/** The script engine's dynamic values, as the bridge sees them through mlua. */
module LuaValue {
  import opened Core

  /** A Lua value. A table has an array part (`items`, keys 1, 2, ... in
      order; a `Nil` there is a hole) and a part keyed by strings
      (`fields`; a `Nil` there is an absent key). `Function` stands for
      every other kind of value (functions, userdata, threads). */
  datatype Value =
    | Nil
    | Bool(b: bool)
    | Int(i: int)
    | Str(s: string)
    | Table(items: seq<Value>, fields: map<string, Value>)
    | Function

  /** mlua's `type_name`. */
  function TypeName(v: Value): string {
    match v
    case Nil => "nil"
    case Bool(_) => "boolean"
    case Int(_) => "integer"
    case Str(_) => "string"
    case Table(_, _) => "table"
    case Function => "function"
  }

  /** mlua's conversion to `bool`: Lua truthiness, only nil and false are false. */
  predicate Truthy(v: Value) {
    !(v.Nil? || v == Bool(false))
  }

  /** mlua's conversion of an argument to `Option<T>`: nil is `None`. */
  function OptionArg(v: Value): (r: Option<Value>)
    ensures r.None? <==> v.Nil?
    ensures r.Some? ==> r.value == v
  {
    if v.Nil? then None else Some(v)
  }

  function DigitChar(d: nat): char
    requires d < 10
  {
    "0123456789"[d]
  }

  function NatToDecimal(n: nat): (r: string)
    ensures |r| > 0
    ensures forall k :: 0 <= k < |r| ==> '0' <= r[k] <= '9'
    decreases n
  {
    if n < 10 then [DigitChar(n)] else NatToDecimal(n / 10) + [DigitChar(n % 10)]
  }

  /** Lua's rendering of an integer as text (`%d`). */
  function IntToDecimal(i: int): (r: string)
    ensures |r| > 0
    ensures (r[0] == '-') <==> i < 0
  {
    if i < 0 then "-" + NatToDecimal(-i) else NatToDecimal(i)
  }

  /** mlua's conversion to `String`: a string as is, an integer in decimal
      (Lua's string coercion), nothing else. */
  function CoerceString(v: Value): (r: Option<string>)
    ensures r.Some? <==> (v.Str? || v.Int?)
    ensures v.Str? ==> r == Some(v.s)
  {
    match v
    case Str(s) => Some(s)
    case Int(i) => Some(IntToDecimal(i))
    case _ => None
  }

  /** The values `sequence_values` visits: `t[1], t[2], ...` up to the first nil. */
  function SequenceValues(items: seq<Value>): (r: seq<Value>)
    ensures |r| <= |items| && r == items[..|r|]
    ensures forall k :: 0 <= k < |r| ==> !r[k].Nil?
    ensures |r| < |items| ==> items[|r|].Nil?
  {
    if items == [] || items[0].Nil? then [] else [items[0]] + SequenceValues(items[1..])
  }

  /** `table.get(key)` on the string-keyed part, read as an `Option<Value>`. */
  function GetField(fields: map<string, Value>, key: string): (r: Option<Value>)
    ensures r.Some? <==> key in fields && !fields[key].Nil?
    ensures r.Some? ==> r.value == fields[key]
  {
    if key in fields && !fields[key].Nil? then Some(fields[key]) else None
  }
}
