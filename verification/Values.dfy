/**
  Run-time values and the meaning of the operators. `Crash` stands for what the
  original does not survive: a fatal log message, a division by zero, or a call
  through a null pointer.
 */
module Values {
  import opened Words

  datatype Value =
    | Null
    | Bool(b: bool)
    | Long(n: uword)
    | Str(s: string)
    | Symbol(name: string)
    | Pair(car: Value, cdr: Value)
    | Proc(address: uword)

  datatype Outcome<+T> =
    | Done(value: T)
    | Crash
    | Timeout
  {
    predicate IsFailure() { !Done? }

    function PropagateFailure<U>(): Outcome<U>
      requires !Done?
    {
      if Crash? then Crash else Timeout
    }

    function Extract(): T
      requires Done?
    {
      value
    }
  }

  datatype UnaryOp = Not | Car | Cdr | Nonnull | IsNull

  datatype BinaryOp =
    | Add | Subtract | Multiply | Divide | Modulus
    | Equals | BinaryAnd | BinaryOr
    | GreaterThan | GreaterThanEqual | LessThan | LessThanEqual
    | Cons | InstanceOf

  predicate Truth(v: Value) {
    match v
    case Bool(b) => b
    case _ => v != Null
  }

  /**
    `Equals` as a virtual call on `lhs`; `rhs` is `None` for a null pointer. The
    empty pair has null fields, so comparing it with any pair ends in a call
    through a null pointer. A string equals the symbol of its name, but not the
    other way round.
   */
  function EqualTo(lhs: Value, rhs: Option<Value>): (r: Outcome<bool>)
    ensures !r.Timeout?
    decreases lhs
  {
    match lhs
    case Long(n) => Done(rhs.Some? && rhs.value.Long? && rhs.value.n == n)
    case Str(s) =>
      Done(rhs.Some? && ((rhs.value.Str? && rhs.value.s == s) || (rhs.value.Symbol? && rhs.value.name == s)))
    case Symbol(name) => Done(rhs.Some? && rhs.value.Symbol? && rhs.value.name == name)
    case Bool(b) => if rhs.None? then Crash else Done(rhs.value.Bool? && rhs.value.b == b)
    case Proc(_) => if rhs.None? then Crash else Done(false)
    case Null => if rhs.None? || rhs.value.Null? || rhs.value.Pair? then Crash else Done(false)
    case Pair(a, d) =>
      if rhs.None? then Crash
      else
        match rhs.value
        case Pair(a', d') => EqualBoth(a, Some(a'), d, Some(d'))
        case Null => EqualBoth(a, None, d, None)
        case _ => Done(false)
  }

  /** The second comparison is made only when the first one holds. */
  function EqualBoth(a: Value, a': Option<Value>, d: Value, d': Option<Value>): (r: Outcome<bool>)
    ensures !r.Timeout?
    decreases Pair(a, d), 0
  {
    var first :- EqualTo(a, a');
    if first then EqualTo(d, d') else Done(false)
  }

  /** Arithmetic on `uint64_t`: wraps; an operand that is not a number gives Null. */
  function Arithmetic(op: BinaryOp, lhs: Value, rhs: Value): (r: Outcome<Value>)
    ensures !r.Timeout?
  {
    if !lhs.Long? || !rhs.Long? then Done(Null)
    else if op == Add then Done(Long((lhs.n + rhs.n) % TWO_TO_64))
    else if op == Subtract then Done(Long((lhs.n - rhs.n) % TWO_TO_64))
    else if op == Multiply then Done(Long((lhs.n * rhs.n) % TWO_TO_64))
    else if rhs.n == 0 then Crash
    else if op == Divide then Done(Long((lhs.n / rhs.n) % TWO_TO_64))
    else Done(Long(lhs.n % rhs.n))
  }

  /** `and` and `or` of a value that is not a Bool are not implemented and give Null. */
  function Logic(op: BinaryOp, lhs: Value, rhs: Value): Value {
    if !lhs.Bool? then Null
    else if op == BinaryAnd then Bool(lhs.b && Truth(rhs))
    else Bool(lhs.b || Truth(rhs))
  }

  function Compare(lhs: Value, rhs: Value): (r: Outcome<int>)
    ensures !r.Timeout?
  {
    if !lhs.Long? || !rhs.Long? then Crash
    else if lhs.n < rhs.n then Done(-1)
    else if lhs.n > rhs.n then Done(1)
    else Done(0)
  }

  function ExecBinary(op: BinaryOp, lhs: Value, rhs: Value): (r: Outcome<Value>)
    ensures !r.Timeout?
  {
    match op
    case Add | Subtract | Multiply | Divide | Modulus => Arithmetic(op, lhs, rhs)
    case Equals => var b :- EqualTo(lhs, Some(rhs)); Done(Bool(b))
    case BinaryAnd | BinaryOr => Done(Logic(op, lhs, rhs))
    case GreaterThan => var c :- Compare(lhs, rhs); Done(Bool(c > 0))
    case GreaterThanEqual => var c :- Compare(lhs, rhs); Done(Bool(c >= 0))
    case LessThan => var c :- Compare(lhs, rhs); Done(Bool(c < 0))
    case LessThanEqual => var c :- Compare(lhs, rhs); Done(Bool(c <= 0))
    case Cons => Done(Pair(lhs, rhs))
    case InstanceOf => Crash
  }

  function ExecUnary(op: UnaryOp, v: Value): (r: Outcome<Value>)
    ensures !r.Timeout?
  {
    match op
    case Not => Done(Bool(!Truth(v)))
    case Car => if v.Pair? then Done(v.car) else if v.Null? then Done(Null) else Crash
    case Cdr => if v.Pair? then Done(v.cdr) else if v.Null? then Done(Null) else Crash
    case Nonnull => Done(Bool(v != Null))
    case IsNull => Done(Bool(v == Null))
  }

  /** The list of `values` ending in Null. */
  function ListOf(values: seq<Value>): Value {
    if values == [] then Null else Pair(values[0], ListOf(values[1..]))
  }
}
