/**
 * The slice of JavaScript's value semantics that the node-construction
 * framework depends on: the runtime values a validator or a builder can be
 * handed, `typeof`, truthiness, reading the `type` property, the string
 * conversion used by template literals, and the two kinds of error the
 * validators throw.
 *
 * Numbers are modelled as integers (the framework never computes with them;
 * NaN, infinities and fractions are not part of this model).
 */
module JsValue {

  /**
   * The kind of a thrown error: a `TypeError`, a plain `Error` (which
   * `assertOneOf` tells apart from a `TypeError`), or the `RangeError` that
   * `String.prototype.repeat` throws on a negative count.
   */
  datatype ErrorKind = TypeError | PlainError | RangeError

  datatype Error = Error(kind: ErrorKind, message: string)

  /** What a validator does: return normally, or throw. */
  datatype Outcome = Pass | Fail(error: Error)

  /** A computation that returns a value or throws. */
  datatype Result<+T> = Ok(value: T) | Err(error: Error)

  datatype Value =
    | Undefined
    | Null
    | Bool(b: bool)
    | Num(n: int)
    | Str(s: string)
    | Arr(items: seq<Value>)
    | Obj(props: map<string, Value>)
    | Fn(source: string)

  /** The `typeof` operator. */
  function TypeOf(v: Value): (t: string)
    ensures t == "object" <==> v.Null? || v.Arr? || v.Obj?
    ensures t == "string" <==> v.Str?
    ensures t == "undefined" <==> v.Undefined?
    ensures t in {"undefined", "object", "boolean", "number", "string", "function"}
  {
    match v
    case Undefined => "undefined"
    case Null => "object"
    case Bool(_) => "boolean"
    case Num(_) => "number"
    case Str(_) => "string"
    case Arr(_) => "object"
    case Obj(_) => "object"
    case Fn(_) => "function"
  }

  /** JavaScript truthiness: `undefined`, `null`, `false`, `0` and `''` are the falsy values. */
  predicate Truthy(v: Value)
  {
    match v
    case Undefined => false
    case Null => false
    case Bool(b) => b
    case Num(n) => n != 0
    case Str(s) => s != ""
    case _ => true
  }

  /**
   * Reading `v.type`: a property lookup on an object, `undefined` on any other
   * non-nullish value, and a `TypeError` from the engine on `undefined` or `null`.
   */
  function ReadType(v: Value): (r: Result<Value>)
    ensures r.Err? <==> v.Undefined? || v.Null?
    ensures r.Err? ==> r.error.kind == TypeError
    ensures v.Obj? ==> r == Ok(if "type" in v.props then v.props["type"] else Undefined)
  {
    match v
    case Undefined => Err(Error(TypeError, "Cannot read properties of undefined (reading 'type')"))
    case Null => Err(Error(TypeError, "Cannot read properties of null (reading 'type')"))
    case Obj(m) => Ok(if "type" in m then m["type"] else Undefined)
    case _ => Ok(Undefined)
  }

  function DigitChar(d: nat): (c: char)
    requires d < 10
    ensures '0' <= c <= '9'
  {
    "0123456789"[d]
  }

  /** The decimal numeral of a natural number. */
  function Digits(n: nat): (s: string)
    ensures |s| > 0
    ensures forall i :: 0 <= i < |s| ==> '0' <= s[i] <= '9'
  {
    if n < 10 then [DigitChar(n)] else Digits(n / 10) + [DigitChar(n % 10)]
  }

  /** `Array.prototype.join(sep)` on strings. */
  function Join(parts: seq<string>, sep: string): (r: string)
    ensures |parts| == 0 ==> r == ""
    ensures |parts| == 1 ==> r == parts[0]
  {
    if |parts| == 0 then ""
    else if |parts| == 1 then parts[0]
    else Join(parts[..|parts| - 1], sep) + sep + parts[|parts| - 1]
  }

  /**
   * `String(v)`, as a template literal applies it. Array elements that are
   * `undefined` or `null` become empty, as `Array.prototype.join` does.
   */
  function ToText(v: Value): (t: string)
    ensures v.Str? ==> t == v.s
  {
    match v
    case Undefined => "undefined"
    case Null => "null"
    case Bool(b) => if b then "true" else "false"
    case Num(n) => if n < 0 then "-" + Digits(-n) else Digits(n)
    case Str(s) => s
    case Arr(xs) =>
      Join(seq(|xs|, i requires 0 <= i < |xs| =>
                      if xs[i].Undefined? || xs[i].Null? then "" else ToText(xs[i])), ",")
    case Obj(_) => "[object Object]"
    case Fn(source) => source
  }

  /**
   * A syntax-tree node: its required `type` tag and its other attributes.
   * The tag is kept apart from the attributes; `AsValue` is the JavaScript
   * object the node is.
   */
  datatype Node = Node(tag: string, attrs: map<string, Value>)

  function AsValue(n: Node): (v: Value)
    ensures v.Obj? && Truthy(v)
    ensures ReadType(v) == Ok(Str(n.tag))
  {
    Obj(n.attrs["type" := Str(n.tag)])
  }
}
