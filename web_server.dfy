/**
 * WebServer.getValidPortParam: the listening port from the command-line
 * arguments, with `Integer.parseInt` for the conversion.
 */
module WebServer {
  import opened Wrappers

  /** The exception `getValidPortParam` lets escape. */
  datatype StartupError = NumberFormatException

  const DefaultPort := 8080

  /** The range of a Java `int`. */
  const IntMin := -0x8000_0000
  const IntMax := 0x7fff_ffff

  predicate IsDigit(c: char) {
    '0' <= c <= '9'
  }

  predicate AllDigits(s: string) {
    forall i :: 0 <= i < |s| ==> IsDigit(s[i])
  }

  /** The number a run of decimal digits denotes (leading zeros allowed). */
  function DigitsValue(s: string): nat
    requires AllDigits(s)
  {
    if s == [] then 0 else DigitsValue(s[..|s| - 1]) * 10 + (s[|s| - 1] as int - '0' as int)
  }

  /** A numeral as `parseInt` reads it: a digit or a sign, then only digits, and at least one digit. */
  predicate IsSignedNumeral(s: string) {
    |s| >= 1 && (IsDigit(s[0]) || ((s[0] == '+' || s[0] == '-') && |s| >= 2))
    && forall i :: 0 < i < |s| ==> IsDigit(s[i])
  }

  /** The value a numeral denotes, its sign applied. */
  function NumeralValue(s: string): int
    requires IsSignedNumeral(s)
  {
    var magnitude: int := if IsDigit(s[0]) then DigitsValue(s) else DigitsValue(s[1..]);
    if s[0] == '-' then -magnitude else magnitude
  }

  /**
   * `Integer.parseInt(s)`: an optional '+' or '-', then one or more decimal
   * digits, denoting a value in the `int` range; anything else throws
   * NumberFormatException.
   */
  function ParseInt(s: string): (r: Result<int, StartupError>)
    ensures r.Success? <==> IsSignedNumeral(s) && IntMin <= NumeralValue(s) <= IntMax
    ensures r.Success? ==> r.value == NumeralValue(s)
    ensures r.Failure? ==> r.error == NumberFormatException
  {
    if s == [] then Failure(NumberFormatException)
    else
      var digits := if s[0] == '-' || s[0] == '+' then s[1..] else s;
      if digits == [] || !AllDigits(digits) then Failure(NumberFormatException)
      else
        var magnitude: int := DigitsValue(digits);
        var value: int := if s[0] == '-' then -magnitude else magnitude;
        if IntMin <= value <= IntMax then Success(value) else Failure(NumberFormatException)
  }

  /** The decimal digits of `n`, without leading zeros: `Integer.toString(n)` for n >= 0. */
  function Decimal(n: nat): (s: string)
    ensures s != [] && AllDigits(s)
    ensures s[0] == '0' ==> n == 0
    decreases n
  {
    if n < 10 then [('0' as int + n) as char] else Decimal(n / 10) + [('0' as int + n % 10) as char]
  }

  lemma {:induction false} DecimalValue(n: nat)
    ensures DigitsValue(Decimal(n)) == n
    decreases n
  {
    if n >= 10 {
      var s := Decimal(n);
      assert s[..|s| - 1] == Decimal(n / 10);
      DecimalValue(n / 10);
    }
  }

  /** Every `int` written in decimal, with a '-' when negative, parses back to itself. */
  lemma ParseIntOfDecimal(n: int)
    requires IntMin <= n <= IntMax
    ensures n >= 0 ==> ParseInt(Decimal(n)) == Success(n)
    ensures n < 0 ==> ParseInt("-" + Decimal(-n)) == Success(n)
  {
    if n >= 0 {
      DecimalValue(n);
    } else {
      var s := "-" + Decimal(-n);
      assert s[1..] == Decimal(-n);
      DecimalValue(-n);
    }
  }

  /**
   * `getValidPortParam(args)`: 8080 without arguments; otherwise `args[0]`
   * parsed, and accepted only when 1023 < port < 65535. The rest of the
   * arguments is never looked at.
   */
  function GetValidPortParam(args: seq<string>): (r: Result<int, StartupError>)
    ensures args == [] ==> r == Success(DefaultPort)
    ensures r.Success? ==> 1024 <= r.value <= 65534
    ensures args != [] && r.Success? ==> ParseInt(args[0]) == Success(r.value)
    ensures args != [] && ParseInt(args[0]).Success? && 1024 <= ParseInt(args[0]).value <= 65534 ==> r.Success?
  {
    if |args| > 0 then
      match ParseInt(args[0])
      case Failure(e) => Failure(e)
      case Success(port) =>
        if port > 1023 && port < 65535 then Success(port) else Failure(NumberFormatException)
    else
      Success(DefaultPort)
  }

  /** Only the first argument counts. */
  lemma OnlyFirstArgumentCounts(first: string, rest: seq<string>)
    ensures GetValidPortParam([first] + rest) == GetValidPortParam([first])
  {
  }

  /** A port in 1024..65534, written in decimal, is returned as given. */
  lemma ValidPortAccepted(port: int, rest: seq<string>)
    requires 1024 <= port <= 65534
    ensures GetValidPortParam([Decimal(port)] + rest) == Success(port)
  {
    ParseIntOfDecimal(port);
  }

  /**
   * A well-formed number outside 1024..65534 is refused with
   * NumberFormatException; this includes 65535, which the doc comment
   * announces as valid, and the reserved ports below 1024.
   */
  lemma OutOfRangePortRejected(port: int, rest: seq<string>)
    requires 0 <= port <= IntMax && (port < 1024 || port >= 65535)
    ensures GetValidPortParam([Decimal(port)] + rest) == Failure(NumberFormatException)
  {
    ParseIntOfDecimal(port);
  }

  /**
   * A first argument that is not a numeral is refused: it is empty, starts
   * with neither a digit nor a sign, is a sign alone, or holds a non-digit
   * after its first char ("8080x", "1-2").
   */
  lemma NonNumericRejected(first: string, rest: seq<string>)
    requires !IsSignedNumeral(first)
    ensures GetValidPortParam([first] + rest) == Failure(NumberFormatException)
  {
  }
}
