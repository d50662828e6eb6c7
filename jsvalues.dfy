/**
 * The JavaScript values an audit-log `changes` or `previous_values` payload can hold,
 * as `JSON.parse` produces them, with the two operators the log page applies to them:
 * truthiness (`!x`) and `typeof`.
 */
module JsValues {

  datatype JsValue =
    | Undefined
    | Null
    | Bool(b: bool)
    | Num(n: int)                         // integer-valued numbers; NaN and -0 are not modelled
    | Str(s: string)
    | Arr(elems: seq<JsValue>)
    | Obj(members: seq<(string, JsValue)>) // members in insertion order, as `JSON.stringify` emits them

  /** JavaScript's ToBoolean. */
  predicate Truthy(v: JsValue)
    ensures !Truthy(v) <==> v == Undefined || v == Null || v == Bool(false) || v == Num(0) || v == Str("")
  {
    match v
    case Undefined => false
    case Null => false
    case Bool(b) => b
    case Num(n) => n != 0
    case Str(s) => s != ""
    case Arr(_) => true
    case Obj(_) => true
  }

  /** The `typeof` operator; `null` and arrays are both "object". */
  function TypeOf(v: JsValue): (t: string)
    ensures t == "object" <==> v.Null? || v.Arr? || v.Obj?
  {
    match v
    case Undefined => "undefined"
    case Null => "object"
    case Bool(_) => "boolean"
    case Num(_) => "number"
    case Str(_) => "string"
    case Arr(_) => "object"
    case Obj(_) => "object"
  }

  /** `Object.keys(o)`: the distinct member names. */
  function ObjectKeys(members: seq<(string, JsValue)>): (keys: set<string>)
    ensures keys == {} <==> members == []
  {
    var keys := set i | 0 <= i < |members| :: members[i].0;
    assert members != [] ==> members[0].0 in keys;
    keys
  }
}
