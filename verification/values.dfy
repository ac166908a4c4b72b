/** The Python values the script handles: what `json.load` produces for a
    recipient field, and the two builtins applied to them, `float()` on the
    trip cost and `str()` when a refused cost is put into a failure reason.
    The parts of those builtins that are numeric parsing or printing are left
    to a `Runtime` oracle. */
module PyValues {

  datatype Option<+T> = None | Some(value: T)

  /** A decoded JSON value. A JSON number without fraction or exponent becomes a
      Python `int`; any other number a `float`, kept here as its literal text.
      An object keeps its entries in dict order, the order in which keys first
      appear (a repeated key keeps its first place and takes its last value), so
      that `str()` of two objects listing the same entries in different orders
      can differ, as it does in Python. */
  datatype Value =
    | Null
    | Bool(b: bool)
    | Int(i: int)
    | Float(literal: string)
    | Str(s: string)
    | Array(items: seq<Value>)
    | Object(entries: seq<(string, Value)>)

  /** What the Python runtime decides that the model does not compute:
      whether `float(s)` accepts a string, and the `repr` of lists and dicts. */
  datatype Runtime = Runtime(parsesAsFloat: string -> bool, repr: Value -> string)

  /** The result of `float(v)`: a number, a ValueError/TypeError, or another exception. */
  datatype Conversion = Converted | Rejected | Raised(message: string)

  /** The least integer magnitude `float()` refuses with OverflowError,
      2^1024 - 2^970: it rounds (ties to even) to 2^1024, one step past the
      largest finite double 2^1024 - 2^971. Written in hexadecimal: 14 digits,
      then 242 zero digits. */
  const FloatOverflowBound: int :=
    0xFFFFFFFFFFFFFC_0000000000000000000000_0000000000000000000000_0000000000000000000000_0000000000000000000000_0000000000000000000000_0000000000000000000000_0000000000000000000000_0000000000000000000000_0000000000000000000000_0000000000000000000000_0000000000000000000000

  const IntTooLarge: string := "int too large to convert to float"

  function Abs(i: int): nat {
    if i < 0 then -i else i
  }

  /** `float(v)`: numbers and booleans convert, strings convert when they spell
      a float, `None`, lists and dicts raise TypeError, and an integer too large
      for a double raises OverflowError. */
  function ToFloat(v: Value, rt: Runtime): (c: Conversion)
    ensures c.Raised? <==> v.Int? && Abs(v.i) >= FloatOverflowBound
    ensures c.Raised? ==> c.message == IntTooLarge
    ensures c.Rejected? <==> v.Null? || v.Array? || v.Object? || (v.Str? && !rt.parsesAsFloat(v.s))
  {
    match v
    case Null => Rejected
    case Bool(_) => Converted
    case Int(i) => if Abs(i) < FloatOverflowBound then Converted else Raised(IntTooLarge)
    case Float(_) => Converted
    case Str(s) => if rt.parsesAsFloat(s) then Converted else Rejected
    case Array(_) => Rejected
    case Object(_) => Rejected
  }

  /** `str(v)`, as an f-string replacement field renders it. Only the values
      `float()` refuses reach a failure reason (`None`, strings, lists and
      dicts); of those, lists and dicts print as their `repr`. */
  function PyStr(v: Value, rt: Runtime): string {
    match v
    case Null => "None"
    case Str(s) => s
    case _ => rt.repr(v)
  }
}
