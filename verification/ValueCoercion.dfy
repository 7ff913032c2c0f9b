/** Coercion of a submitted scalar to the type its schema declares. */
module ValueCoercion {
  import opened Wrappers
  import opened JsonModel
  import opened ConfigSchema

  /**
   * The parts of the Python runtime that the coercion calls: `str` of a non-string value, `int`
   * and `float` of a string (`None` when they raise), and `strip().lower()`.
   */
  datatype Runtime = Runtime(
    repr: Json -> string,
    parseInt: string -> Option<int>,
    parseFloat: string -> Option<real>,
    fold: string -> string)

  function PyStr(rt: Runtime, v: Json): string {
    if v.Str? then v.s else rt.repr(v)
  }

  /** Python's `int` of a float: truncation toward zero. */
  function Truncate(r: real): int {
    if r >= 0.0 then r.Floor else -((-r).Floor)
  }

  /** `None` stands for the `ValueError` that callers surface as HTTP 422. */
  function Coerce(rt: Runtime, typ: SchemaType, v: Json): Option<Json> {
    match typ
    case IntegerType => (
      match v
      case Int(i) => Some(v)
      case Real(r) => Some(Int(Truncate(r)))
      case Str(s) => if rt.parseInt(s).Some? then Some(Int(rt.parseInt(s).value)) else None
      case _ => None)
    case NumberType => (
      match v
      case Int(i) => Some(Real(i as real))
      case Real(r) => Some(v)
      case Str(s) => if rt.parseFloat(s).Some? then Some(Real(rt.parseFloat(s).value)) else None
      case _ => None)
    case BooleanType => (
      match v
      case Bool(b) => Some(v)
      case Str(s) =>
        if rt.fold(s) in ["true", "1", "yes", "on"] then Some(Bool(true))
        else if rt.fold(s) in ["false", "0", "no", "off", ""] then Some(Bool(false))
        else None
      case _ => None)
    case StringType => Some(Str(PyStr(rt, v)))
    case _ => Some(v)
  }

  /** A coerced value is already of its declared type: coercing it again changes nothing. */
  lemma CoerceSettles(rt: Runtime, typ: SchemaType, v: Json)
    requires Coerce(rt, typ, v).Some?
    ensures Coerce(rt, typ, Coerce(rt, typ, v).value) == Coerce(rt, typ, v)
  {
  }

  const TRUE_WORDS := {"true", "1", "yes", "on"}
  const FALSE_WORDS := {"false", "0", "no", "off", ""}

  /** `i` is `r` without its fraction. */
  predicate WithoutFraction(r: real, i: int) {
    if r >= 0.0 then i as real <= r < i as real + 1.0 else i as real - 1.0 < r <= i as real
  }

  /**
   * What a coercion gives: a value of the declared type that stands for the submitted one, or nothing
   * for a value that does not stand for any.  Booleans are neither integers nor numbers.
   */
  lemma CoerceMeans(rt: Runtime, typ: SchemaType, v: Json)
    ensures var c := Coerce(rt, typ, v);
      match typ
      case IntegerType => (
        && (c.Some? <==> v.Int? || v.Real? || (v.Str? && rt.parseInt(v.s).Some?))
        && (c.Some? ==> c.value.Int?)
        && (v.Int? ==> c == Some(v)) && (v.Real? ==> WithoutFraction(v.r, c.value.i))
        && (v.Str? && c.Some? ==> c.value.i == rt.parseInt(v.s).value))
      case NumberType => (
        && (c.Some? <==> v.Int? || v.Real? || (v.Str? && rt.parseFloat(v.s).Some?))
        && (c.Some? ==> c.value.Real?)
        && (v.Int? ==> c.value.r == v.i as real) && (v.Real? ==> c == Some(v))
        && (v.Str? && c.Some? ==> c.value.r == rt.parseFloat(v.s).value))
      case BooleanType => (
        && (v.Bool? ==> c == Some(v))
        && (v.Str? ==> c == if rt.fold(v.s) in TRUE_WORDS then Some(Bool(true))
                            else if rt.fold(v.s) in FALSE_WORDS then Some(Bool(false)) else None)
        && (!v.Bool? && !v.Str? ==> c.None?))
      case StringType => c == Some(Str(if v.Str? then v.s else rt.repr(v)))
      case _ => c == Some(v)
  {
  }
}
