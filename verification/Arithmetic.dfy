/** Arithmetic on 32-bit integers, shared by the two forms of the intermediate
    representation. */
module Arithmetic {
  datatype Option<+T> = None | Some(value: T)

  datatype BinOp = Add | Sub | Mul | SDiv

  datatype CmpOp = Eq | Ne | Gt | Ge | Lt | Le

  /** Undefined is the use of a result or slot that has no value. */
  datatype Reason = Undefined | Trap | Lost

  const MIN: int := -0x8000_0000

  /** The 32-bit two's complement value of n. */
  function Wrap(n: int): int { (n - MIN) % 0x1_0000_0000 + MIN }

  /** Division towards zero. */
  function Quotient(a: int, b: int): int
    requires b != 0
  {
    if (a < 0) == (b < 0) then Abs(a) / Abs(b) else -(Abs(a) / Abs(b))
  }

  function Abs(n: int): nat { if n < 0 then -n else n }

  /** None when the machine traps. */
  function Arith(op: BinOp, a: int, b: int): Option<int> {
    match op
    case Add => Some(Wrap(a + b))
    case Sub => Some(Wrap(a - b))
    case Mul => Some(Wrap(a * b))
    case SDiv => if b == 0 || (a == MIN && b == -1) then None else Some(Quotient(a, b))
  }

  predicate Test(op: CmpOp, a: int, b: int) {
    match op
    case Eq => a == b
    case Ne => a != b
    case Gt => a > b
    case Ge => a >= b
    case Lt => a < b
    case Le => a <= b
  }

  function Bit(b: bool): int { if b then 1 else 0 }
}
