/** Source positions, the failure datatypes shared by every stage of the
    pipeline, and the 64-bit integer arithmetic the generated code runs on. */
module Common {

  /** A position in the source buffer: byte index, 1-based line and column. */
  datatype Pos = Pos(index: int, line: int, column: int)

  /** The position every lexer starts from. */
  const PosInit: Pos := Pos(0, 1, 1)

  datatype Option<+T> = None | Some(value: T)

  /** Every diagnostic the pipeline can stop on. Each stands for one
      `error_print(...); exit(1)` (or `fprintf(stderr, ...); exit(1)`) site of
      the C source, or for a crash the C source would run into. */
  datatype Error =
      // lexer
    | UnexpectedCharacter(start: Pos, end: Pos)
      // parser
    | EmptyProgram
    | UnclosedBlock(start: Pos, end: Pos)
    | ExpectedIdentifier(start: Pos, end: Pos)
    | ExpectedVarSemicolon(start: Pos, end: Pos)
    | ExpectedExprSemicolon(start: Pos, end: Pos)
    | ExpectedPrimary(start: Pos, end: Pos)
      // analyzer
    | UnexpectedNodeKind(start: Pos, end: Pos)
    | UnknownStatementKind
    | UnknownExpressionKind
    | UnknownLiteralKind
    | DuplicateDeclaration(start: Pos, end: Pos)
    | UnresolvedName(start: Pos, end: Pos)
      // IR generator
    | UnknownBinaryOperator
    | NullDataType
    | NullScope
      // interpreter
    | MemoryFault
    | RegisterFault

  datatype Result<+T> = Ok(value: T) | Err(error: Error) {
    predicate IsFailure() { Err? }
    function PropagateFailure<U>(): Result<U>
      requires Err?
    {
      Err(error)
    }
    function Extract(): T
      requires Ok?
    {
      value
    }
  }

  const Two63: int := 0x8000_0000_0000_0000
  const Two64: int := 0x1_0000_0000_0000_0000

  predicate IsInt64(x: int) {
    -Two63 <= x < Two63
  }

  /** Two's-complement wrap-around of an unbounded integer into `int64_t`. */
  function Wrap64(x: int): (r: int)
    ensures IsInt64(r)
    ensures (r - x) % Two64 == 0
    ensures IsInt64(x) ==> r == x
  {
    (x + Two63) % Two64 - Two63
  }

  /** Wrapping ignores multiples of 2^64. */
  lemma Wrap64Shift(x: int, k: int)
    ensures Wrap64(x + k * Two64) == Wrap64(x)
  {
    var a := x + Two63;
    var q, r := a / Two64, a % Two64;
    assert a + k * Two64 == (q + k) * Two64 + r;
    DivModUnique(a + k * Two64, Two64, q + k, r);
  }

  /** Two integers that agree modulo 2^64 wrap to the same `int64_t`. */
  lemma Wrap64Congruent(x: int, y: int)
    requires (x - y) % Two64 == 0
    ensures Wrap64(x) == Wrap64(y)
  {
    var k := (x - y) / Two64;
    assert x == y + k * Two64;
    Wrap64Shift(y, k);
  }

  /** Euclidean division is determined by quotient and remainder. */
  lemma DivModUnique(a: int, d: int, q: int, r: int)
    requires d > 0 && 0 <= r < d && a == q * d + r
    ensures a / d == q && a % d == r
  {
    var q0, r0 := a / d, a % d;
    assert a == q0 * d + r0;
    if q0 < q {
      MulMonotone(q - q0, d);
    } else if q0 > q {
      MulMonotone(q0 - q, d);
    }
  }

  lemma MulMonotone(k: int, d: int)
    requires k >= 1 && d > 0
    ensures k * d >= d
  {
  }
}
