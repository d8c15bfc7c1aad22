/** Shared vocabulary of the shop back-end: optional values, results and
    failures standing for the exceptions the Java code throws, Java's 32-bit
    `int` arithmetic, and clock readings. */
module Base {

  /** A nullable reference or a `java.util.Optional`. */
  datatype Option<+T> = None | Some(value: T)

  /** The value an operation returns, or the exception it throws. */
  datatype Result<+T, +E> = Success(value: T) | Failure(error: E)

  /** A `void` operation: it either returns normally or throws. */
  datatype Outcome<+E> = Pass | Fail(error: E)

  /** The exceptions the core throws, by meaning. */
  datatype Failure =
    | Invalid(message: string)   // IllegalArgumentException from a validation
    | NotFound                   // IllegalArgumentException: no entity with that id or email
    | Conflict                   // IllegalArgumentException: the email is already in use
    | InsufficientStock          // IllegalStateException from a stock check
    | NullReference              // NullPointerException

  /** A reading of `LocalDateTime.now()` or `System.currentTimeMillis()`. */
  type Timestamp = int

  const MIN_INT: int := -0x8000_0000
  const MAX_INT: int := 0x7fff_ffff
  const INT_RANGE: int := 0x1_0000_0000

  /** Java's `int`. */
  type Int32 = x: int | -0x8000_0000 <= x <= 0x7fff_ffff

  /** The Java `int` that an exact result `x` wraps around to. */
  function Wrap32(x: int): (r: Int32)
    ensures MIN_INT <= x <= MAX_INT ==> r == x
    ensures (x - r) % INT_RANGE == 0
  {
    (x - MIN_INT) % INT_RANGE + MIN_INT
  }

  lemma ModuloShift(y: int, q: int)
    ensures (y - INT_RANGE * q) % INT_RANGE == y % INT_RANGE
  {
  }

  /** Wrapping once at the end is the same as wrapping after every step,
      so a run of `+=` on an `int` field is the wrapped exact sum. */
  lemma {:induction false} Wrap32AddWrap32(a: int, b: int)
    ensures Wrap32(Wrap32(a) + b) == Wrap32(a + b)
  {
    var q := (a - MIN_INT) / INT_RANGE;
    assert Wrap32(a) == a - INT_RANGE * q;
    ModuloShift(a + b - MIN_INT, q);
  }

  /** Taking `q` units off an `int` stock and adding them back restores
      it, whether or not either step wrapped around. */
  lemma StockRoundTrip(s: Int32, q: int)
    ensures Wrap32(Wrap32(s - q) + q) == s
  {
    Wrap32AddWrap32(s - q, q);
  }
}
