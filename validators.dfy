/**
 * The argument validators of the command line (validators.py). Each takes
 * the text argparse hands it and either returns the parsed value or raises
 * `ArgumentTypeError`, modelled here as `Err`.
 */
module Validators {
  import opened Wrappers

  /** Which `ArgumentTypeError` a validator raises. */
  datatype ArgumentError =
    | InvalidNumber                 // not an integer, or a negative one
    | PortTooShort                  // fewer than four decimal digits
    | PortTooLarge                  // above `MaxPort`
    | ConnectionsBelowOne           // a connection limit of 0
    | ConnectionsAbove(limit: nat)  // a connection limit above `limit`
    | InvalidUsername               // a character other than an ASCII letter or digit

  const MaxPort := 35550
  const MaxConnections := 255
  const MaxConnectionsPerIp := 10

  // ---------------------------------------------------------------------
  // Decimal integers: the part of Python's `int(str)` and `str(int)` that
  // the validators rely on.
  // ---------------------------------------------------------------------

  predicate IsDigit(c: char)
  {
    '0' <= c <= '9'
  }

  predicate AllDigits(s: string)
  {
    forall i | 0 <= i < |s| :: IsDigit(s[i])
  }

  /** The value of a string of decimal digits, most significant first. */
  function DigitsValue(s: string): nat
    requires AllDigits(s)
  {
    if s == [] then 0
    else DigitsValue(s[..|s| - 1]) * 10 + (s[|s| - 1] as int - '0' as int)
  }

  /**
   * CPython's default limit on the digits `int()` converts from decimal
   * text (`sys.get_int_max_str_digits()`); leading zeros count, the sign does not.
   */
  const MaxStrDigits := 4300

  /** `int(s)` on an optionally signed run of ASCII digits; `None` where Python raises. */
  function ParseInt(s: string): (r: Option<int>)
    ensures r.Some? ==> |s| <= MaxStrDigits + 1
  {
    if |s| > 1 && (s[0] == '-' || s[0] == '+') && AllDigits(s[1..]) then
      if |s| - 1 > MaxStrDigits then None
      else
        var magnitude: int := DigitsValue(s[1..]);
        Some(if s[0] == '-' then -magnitude else magnitude)
    else if s != [] && AllDigits(s) then
      if |s| > MaxStrDigits then None
      else Some(DigitsValue(s))
    else
      None
  }

  /** `str(n)` for a non-negative integer: its digits, with no leading zero. */
  function DecimalString(n: nat): (r: string)
    ensures r != [] && AllDigits(r)
    ensures DigitsValue(r) == n
    ensures |r| > 1 ==> r[0] != '0'
  {
    var last := ['0' + (n % 10) as char];
    if n < 10 then last
    else
      var prefix := DecimalString(n / 10);
      assert (prefix + last)[..|prefix + last| - 1] == prefix;
      prefix + last
  }

  /** Reading back what `str` printed gives the number again, unless it has too many digits. */
  lemma ParseDecimalString(n: nat)
    ensures ParseInt(DecimalString(n)) == if |DecimalString(n)| <= MaxStrDigits then Some(n) else None
  {
  }

  function Pow10(k: nat): (r: nat)
    ensures r >= 1
  {
    if k == 0 then 1 else 10 * Pow10(k - 1)
  }

  /** `str(n)` has at most `k` digits exactly when `n < 10^k`. */
  lemma {:induction false} DecimalStringLength(n: nat, k: nat)
    requires k >= 1
    ensures |DecimalString(n)| <= k <==> n < Pow10(k)
  {
    if k == 1 {
      assert Pow10(1) == 10;
    } else {
      assert Pow10(k) == 10 * Pow10(k - 1);
      if n >= 10 {
        DecimalStringLength(n / 10, k - 1);
        assert |DecimalString(n)| == |DecimalString(n / 10)| + 1;
        assert n / 10 < Pow10(k - 1) <==> n < 10 * Pow10(k - 1);
      } else {
        assert Pow10(k - 1) >= 1;
      }
    }
  }

  /** The digit-count test of the port check is the bound `port < 1000`. */
  lemma FewerThanFourDigits(n: nat)
    ensures |DecimalString(n)| < 4 <==> n < 1000
  {
    DecimalStringLength(n, 3);
    assert Pow10(3) == 1000;
  }

  // ---------------------------------------------------------------------
  // The validators.
  // ---------------------------------------------------------------------

  /** int_validator: parse, refuse negatives, return the number itself. */
  function IntValidator(num: string): (r: Result<nat, ArgumentError>)
    ensures r.Ok? <==> ParseInt(num).Some? && ParseInt(num).value >= 0
    ensures r.Ok? ==> r.value == ParseInt(num).value
    ensures r.Err? ==> r.error == InvalidNumber
  {
    match ParseInt(num)
    case None => Err(InvalidNumber)
    case Some(n) => if n < 0 then Err(InvalidNumber) else Ok(n)
  }

  /** Every number `str` can print within the digit limit is accepted, as itself; longer text is refused. */
  lemma IntValidatorAcceptsDecimal(n: nat)
    ensures IntValidator(DecimalString(n))
            == if |DecimalString(n)| <= MaxStrDigits then Ok(n) else Err(InvalidNumber)
  {
    ParseDecimalString(n);
  }

  /** Unsigned digit text beyond the limit is an invalid number, leading zeros included. */
  lemma IntValidatorRefusesLongText(s: string)
    requires AllDigits(s) && |s| > MaxStrDigits
    ensures IntValidator(s) == Err(InvalidNumber)
  {
  }

  /** A port of 2121 padded with zeros to 4301 digits is refused as an invalid number. */
  lemma ZeroPaddedPortRefused()
    ensures PortValidator(seq(4297, _ => '0') + "2121") == Err(InvalidNumber)
  {
    var s := seq(4297, _ => '0') + "2121";
    assert AllDigits(s) by {
      forall i | 0 <= i < |s| ensures IsDigit(s[i]) {
        if i < 4297 { assert s[i] == '0'; } else { assert s[i] == "2121"[i - 4297]; }
      }
    }
    IntValidatorRefusesLongText(s);
  }

  /** A minus sign in front of a positive number is always refused. */
  lemma IntValidatorRefusesNegative(n: nat)
    requires n > 0
    ensures IntValidator("-" + DecimalString(n)) == Err(InvalidNumber)
  {
  }

  /** port_validator: at least four digits and at most `MaxPort`. */
  function PortValidator(port: string): (r: Result<nat, ArgumentError>)
    ensures r.Ok? <==> ParseInt(port).Some? && 1000 <= ParseInt(port).value <= MaxPort
    ensures r.Ok? ==> r.value == ParseInt(port).value
    ensures r == Err(PortTooShort) <==> ParseInt(port).Some? && 0 <= ParseInt(port).value < 1000
  {
    match IntValidator(port)
    case Err(e) => Err(e)
    case Ok(p) =>
      FewerThanFourDigits(p);
      if |DecimalString(p)| < 4 then Err(PortTooShort)
      else if p > MaxPort then Err(PortTooLarge)
      else Ok(p)
  }

  /** max_con: a total connection limit between 1 and `MaxConnections`. */
  function MaxCon(con: string): (r: Result<nat, ArgumentError>)
    ensures r.Ok? <==> ParseInt(con).Some? && 1 <= ParseInt(con).value <= MaxConnections
    ensures r.Ok? ==> r.value == ParseInt(con).value
  {
    match IntValidator(con)
    case Err(e) => Err(e)
    case Ok(c) =>
      if c < 1 then Err(ConnectionsBelowOne)
      else if c > MaxConnections then Err(ConnectionsAbove(MaxConnections))
      else Ok(c)
  }

  /** max_con_per_ip: a per-client connection limit between 1 and `MaxConnectionsPerIp`. */
  function MaxConPerIp(con: string): (r: Result<nat, ArgumentError>)
    ensures r.Ok? <==> ParseInt(con).Some? && 1 <= ParseInt(con).value <= MaxConnectionsPerIp
    ensures r.Ok? ==> r.value == ParseInt(con).value
  {
    match IntValidator(con)
    case Err(e) => Err(e)
    case Ok(c) =>
      if c < 1 then Err(ConnectionsBelowOne)
      else if c > MaxConnectionsPerIp then Err(ConnectionsAbove(MaxConnectionsPerIp))
      else Ok(c)
  }

  /** A character of `ascii_lowercase + ascii_uppercase + digits`. */
  predicate IsAsciiLetterOrDigit(c: char)
  {
    'a' <= c <= 'z' || 'A' <= c <= 'Z' || IsDigit(c)
  }

  /** Python's `all([...])` over the characters, one at a time; true of `""`. */
  function AllLettersOrDigits(s: string): (b: bool)
    ensures b <==> forall i | 0 <= i < |s| :: IsAsciiLetterOrDigit(s[i])
  {
    if s == [] then true
    else IsAsciiLetterOrDigit(s[0]) && AllLettersOrDigits(s[1..])
  }

  /** username_validator: only ASCII letters and digits, returned unchanged. */
  function UsernameValidator(username: string): (r: Result<string, ArgumentError>)
    ensures r.Ok? <==> forall i | 0 <= i < |username| :: IsAsciiLetterOrDigit(username[i])
    ensures r.Ok? ==> r.value == username
    ensures r.Err? ==> r.error == InvalidUsername
  {
    if !AllLettersOrDigits(username) then Err(InvalidUsername) else Ok(username)
  }
}
