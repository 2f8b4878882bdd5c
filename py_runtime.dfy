/**
 The slice of Python's runtime that the evaluation adapter relies on: JSON-like
 values, the exceptions its operations can raise, slicing with negative indices
 and clamping, and the built-in `sum` over a list of JSON values.
 */
module PyRuntime {

  /** A JSON value as Python's `json` module produces it. Integers and floats
      are kept apart, as Python keeps them apart; an object is a map from keys
      to values. */
  datatype Value =
    | Null
    | Bool(b: bool)
    | Int(i: int)
    | Float(r: real)
    | Str(s: string)
    | Arr(items: seq<Value>)
    | Obj(fields: map<string, Value>)

  /** The exceptions the adapter's operations raise or let escape. */
  datatype PyError =
    | KeyError(key: string)
    | TypeError(what: string)
    | ValueError(what: string)
    | AssertionError(message: string)
    | AttributeError(name: string)
    | NotImplementedError(message: string)

  /** Whether a dictionary holds a key, and if so its value. */
  datatype Option<+T> = None | Some(value: T)

  /** A Python call either returns a value or raises. */
  datatype Result<+T> = Ok(value: T) | Err(error: PyError)

  /** Python's resolution of one slice bound against a sequence of length n:
      a negative bound counts from the end, and the result is clamped to [0, n]. */
  function SliceBound(i: int, n: nat): (b: nat)
    ensures b <= n
    ensures 0 <= i <= n ==> b == i
    ensures -(n as int) <= i < 0 ==> b == n + i
    ensures i > n ==> b == n
    ensures i < -(n as int) ==> b == 0
  {
    if i < 0 then (if i + n < 0 then 0 else i + n)
    else if i > n then n
    else i
  }

  /** `s[start:stop]` in Python. */
  function Slice<T>(s: seq<T>, start: int, stop: int): (r: seq<T>)
    ensures var a, b := SliceBound(start, |s|), SliceBound(stop, |s|);
      |r| == (if a < b then b - a else 0) &&
      forall k :: 0 <= k < |r| ==> r[k] == s[a + k]
  {
    var a, b := SliceBound(start, |s|), SliceBound(stop, |s|);
    if a < b then s[a..b] else []
  }

  /** `s[start:-1]` for a positive start drops the last element and everything
      before `start`; it is empty once `start` reaches the last index. */
  lemma SliceDropLast<T>(s: seq<T>, start: int)
    requires start > 0
    ensures start < |s| - 1 ==> Slice(s, start, -1) == s[start..|s| - 1]
    ensures start >= |s| - 1 ==> Slice(s, start, -1) == []
  {
  }

  /** The number Python adds for `v` in `sum`, if `v` is a number at all
      (`bool` is a subclass of `int`). */
  function Numeric(v: Value): (n: Result<real>)
    ensures n.Ok? <==> (v.Bool? || v.Int? || v.Float?)
    ensures v.Float? ==> n == Ok(v.r)
    ensures n.Err? ==> n.error.TypeError?
  {
    match v
    case Bool(b) => Ok(if b then 1.0 else 0.0)
    case Int(i) => Ok(i as real)
    case Float(r) => Ok(r)
    case _ => Err(TypeError("unsupported operand type(s) for +"))
  }

  /** Python's `sum(xs)`: the total from 0, or TypeError as soon as an item is
      not a number. */
  function Sum(xs: seq<Value>): (r: Result<real>)
    ensures r.Ok? <==> forall k :: 0 <= k < |xs| ==> Numeric(xs[k]).Ok?
    ensures r.Err? ==> r.error.TypeError?
    ensures xs == [] ==> r == Ok(0.0)
  {
    if xs == [] then Ok(0.0)
    else match (Numeric(xs[0]), Sum(xs[1..]))
      case (Ok(x), Ok(rest)) => Ok(x + rest)
      case (Err(e), _) => Err(e)
      case (_, Err(e)) => Err(e)
  }
}
