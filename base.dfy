/**
 * Shared vocabulary of the model: optional values, the exceptions the Python
 * code raises (modelled as error values), and the few string operations the
 * code relies on (`in` on strings, `str.lower`, `int(...)`, digit tests).
 */
module Base {

  const NONE_SUBSCRIPT_MESSAGE: string := "'NoneType' object is not subscriptable"

  datatype Option<T> = None | Some(value: T) {
    /** `dict.get(key, default)` on a key that may be missing. */
    function GetOr(default: T): T {
      if Some? then value else default
    }
  }

  /** The exceptions of the Python code that the model keeps. */
  datatype Error =
    | AssertionError(msg: string)
    | RuntimeError(msg: string)
    | ValueError(msg: string)
    | TypeError(msg: string)
    | AttributeError(msg: string)

  /** A value, or the exception that ended the computation. */
  datatype Result<T> = Ok(value: T) | Err(error: Error)

  /** A computation run for its effect only: it finished, or it raised. */
  datatype Outcome = Pass | Fail(error: Error)

  predicate IsDigit(c: char) {
    '0' <= c <= '9'
  }

  predicate AllDigits(s: string) {
    forall i | 0 <= i < |s| :: IsDigit(s[i])
  }

  /** Value of a string of decimal digits. */
  function DigitsValue(s: string): nat
    requires AllDigits(s)
  {
    if s == [] then 0
    else DigitsValue(s[..|s| - 1]) * 10 + (s[|s| - 1] as int - '0' as int)
  }

  /**
   * Python's `int(s)` for the identifiers the directory hands out: a
   * non-empty string of ASCII digits converts, anything else raises
   * ValueError (None here).
   */
  function ParseInt(s: string): (r: Option<int>)
    ensures r.Some? <==> s != [] && AllDigits(s)
    ensures r.Some? ==> r.value >= 0
  {
    if s != [] && AllDigits(s) then Some(DigitsValue(s)) else None
  }

  /** Decimal rendering of a natural number. */
  function Decimal(n: nat): (s: string)
    ensures s != [] && AllDigits(s)
    ensures DigitsValue(s) == n
  {
    if n < 10 then ['0' + n as char]
    else
      var s := Decimal(n / 10) + ['0' + (n % 10) as char];
      assert s[..|s| - 1] == Decimal(n / 10);
      s
  }

  predicate StartsWith(s: string, prefix: string) {
    |prefix| <= |s| && s[..|prefix|] == prefix
  }

  /** `t in s` on Python strings: t occurs in s starting at index i. */
  predicate OccursAt(s: string, t: string, i: int) {
    0 <= i && i + |t| <= |s| && s[i..i + |t|] == t
  }

  /** `t in s` on Python strings. */
  predicate Contains(s: string, t: string) {
    exists i | 0 <= i <= |s| - |t| :: OccursAt(s, t, i)
  }

  /** `str.lower()` restricted to ASCII letters. */
  function ToLower(s: string): (r: string)
    ensures |r| == |s|
    ensures forall i | 0 <= i < |s| :: if 'A' <= s[i] <= 'Z' then r[i] as int == s[i] as int + 32 else r[i] == s[i]
    ensures forall i | 0 <= i < |r| :: !('A' <= r[i] <= 'Z')
  {
    if s == [] then []
    else
      var c := s[0];
      [if 'A' <= c <= 'Z' then (c as int + 32) as char else c] + ToLower(s[1..])
  }
}
