/** Small types shared by the modules below. */
module Common {

  datatype Option<+T> = None | Some(value: T) {
    function GetOr(other: T): T { if Some? then value else other }
  }

  datatype Result<+T> = Ok(value: T) | Err(error: string)

  /** A time.Time: the zero value, or an instant in nanoseconds. Subtracting the
      zero value saturates, so it is farther away than any duration. */
  datatype Stamp = Never | At(t: int)

  const SECOND: int := 1_000_000_000
  const MINUTE: int := 60 * SECOND
  const HOUR: int := 60 * MINUTE

  /** now.Sub(s) < d */
  predicate Within(now: int, s: Stamp, d: int) {
    s.At? && now - s.t < d
  }

  /** now.Before(s) */
  predicate Before(now: int, s: Stamp) {
    s.At? && now < s.t
  }

  /** now.After(s) */
  predicate After(now: int, s: Stamp) {
    s.Never? || s.t < now
  }

  predicate Distinct<T(==)>(s: seq<T>) {
    forall i, j :: 0 <= i < j < |s| ==> s[i] != s[j]
  }

  function Digit(n: int): char
    requires 0 <= n < 10
  {
    "0123456789"[n]
  }

  function Decimal(n: nat): string {
    if n < 10 then [Digit(n)] else Decimal(n / 10) + [Digit(n % 10)]
  }
}
