/** Shared vocabulary of the licensing backend: optional values, the three
    domain error kinds (plus the runtime division fault), .NET time spans and
    the C# integer remainder. */
module Common {

  datatype Option<+T> = None | Some(value: T) {
    /** `x ?? d` in C#. */
    function GetOr(default: T): T {
      if Some? then value else default
    }
  }

  /** NotFound, BadRequest and Conflict are the service exceptions; a decimal
      division by zero raises the runtime's DivideByZeroException. */
  datatype ErrorKind = NotFound | BadRequest | Conflict | DivideByZero

  datatype Error = Error(kind: ErrorKind, message: string)

  /** The value an operation produces, or the exception it throws. */
  datatype Result<+T> = Success(value: T) | Failure(error: Error)

  /** What a `Task`-returning service method yields: completion or an exception. */
  datatype Outcome = Pass | Fail(error: Error)

  const DivideByZeroMessage: string := "Attempted to divide by zero."

  /** `DateTime` values are counted in ticks of 100 ns. */
  const TicksPerDay: int := 864_000_000_000

  /** C# `a % 10`: the remainder truncates toward zero, so it takes the sign
      of the dividend (Dafny's `%` never returns a negative value). */
  function CsRem10(a: int): (r: int)
    ensures a >= 0 ==> r == a % 10
    ensures a < 0 ==> -10 < r <= 0
    ensures (a - r) % 10 == 0
  {
    if a >= 0 then a % 10 else -((-a) % 10)
  }

  /** `TimeSpan.Days`: the whole days of a span of ticks, truncated toward zero. */
  function WholeDays(span: int): (days: int)
    ensures span >= 0 ==> days >= 0 && days * TicksPerDay <= span < (days + 1) * TicksPerDay
    ensures span < 0 ==> days <= 0 && (days - 1) * TicksPerDay < span <= days * TicksPerDay
  {
    if span >= 0 then span / TicksPerDay else -((-span) / TicksPerDay)
  }

  predicate IsDigit(c: char) {
    '0' <= c <= '9'
  }

  /** What `int.TryParse` / `long.TryParse` accept for the fixed lengths used
      here (9, 10 and 11 characters), approximated as "only decimal digits". */
  predicate IsNumeric(s: string) {
    |s| > 0 && forall i :: 0 <= i < |s| ==> IsDigit(s[i])
  }

  /** `c - '0'` in C#: the distance of the character from '0', taken here over
      Unicode scalar values (C# subtracts UTF-16 code units; the two agree
      inside the Basic Multilingual Plane). */
  function DigitValue(c: char): int {
    c as int - '0' as int
  }

  /** One character of `string.ToUpper()`: ASCII letters only. */
  function UpperChar(c: char): char {
    if 'a' <= c <= 'z' then (c as int - 32) as char else c
  }

  /** `string.ToUpper()` on ASCII letters; every other character is kept. */
  function ToUpper(s: string): (u: string)
    ensures |u| == |s|
    ensures forall i :: 0 <= i < |s| && !('a' <= s[i] <= 'z') ==> u[i] == s[i]
    ensures forall i :: 0 <= i < |s| && 'a' <= s[i] <= 'z' ==> u[i] == (s[i] as int - 32) as char
  {
    seq(|s|, i requires 0 <= i < |s| => UpperChar(s[i]))
  }
}
