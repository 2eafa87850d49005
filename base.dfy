/** Failure values, an exception-carrying result type and Java's 32-bit
    integer arithmetic, shared by every other module. */
module Base {

  datatype Option<T> = None | Some(value: T)

  /** The Java exceptions the engine can raise. `StackOverflow` is what the
      model raises when its depth bound (fuel) runs out. */
  datatype Exc =
    | PatternSyntax(desc: string, index: int)
    | IllegalArgument
    | IllegalState
    | IndexOutOfBounds(at: int)
    | NullPointer
    | ClassCast
    | StackOverflow

  /** Either a normal return value or a thrown exception. */
  datatype Outcome<T> = Ok(value: T) | Err(exc: Exc) {
    predicate IsFailure() { Err? }
    function PropagateFailure<U>(): Outcome<U> requires Err? { Err(exc) }
    function Extract(): T requires Ok? { value }
  }

  const TWO32: int := 0x1_0000_0000
  const INT_MIN: int := -0x8000_0000
  const INT_MAX: int := 0x7FFF_FFFF

  predicate IsInt32(x: int) { INT_MIN <= x <= INT_MAX }

  /** Reduction of an unbounded integer to Java's `int` range (two's complement). */
  function Wrap32(x: int): (r: int)
    ensures IsInt32(r)
    ensures (r - x) % TWO32 == 0
    ensures IsInt32(x) ==> r == x
  {
    var m := (x - INT_MIN) % TWO32;
    m + INT_MIN
  }

  /** Java's `a + b` and `a * b` on `int`: the exact result when it
      fits, otherwise wrapped. */
  function Add32(a: int, b: int): (r: int)
    ensures IsInt32(r) && (IsInt32(a + b) ==> r == a + b)
  {
    Wrap32(a + b)
  }

  function Mul32(a: int, b: int): (r: int)
    ensures IsInt32(r) && (IsInt32(a * b) ==> r == a * b)
  {
    Wrap32(a * b)
  }

  /** Adding a non-negative number in Java's `int` yields a smaller value
      exactly when the true sum leaves the `int` range: the overflow test
      `temp < minL` of the quantifier analysis relies on this. */
  lemma AddOverflowDetected(a: int, b: int)
    requires IsInt32(a) && IsInt32(b) && b >= 0
    ensures Add32(a, b) < a <==> a + b > INT_MAX
  {
    if a + b > INT_MAX {
      assert Wrap32(a + b) == a + b - TWO32;
    }
  }

  function Max(a: int, b: int): int { if a >= b then a else b }
  function Min(a: int, b: int): int { if a <= b then a else b }
}
