/**
 * Python's integer operators as the script uses them: floor division `//`,
 * the floor modulo `%` (both raise ZeroDivisionError on a zero divisor, which
 * callers model as an error result), and `str` of an int, together with a
 * decimal parser that is its inverse.
 */
module PyInt {
  import opened Wrappers

  /** Multiplying by a positive real keeps a strict order. */
  lemma ScaleStrict(c: real, a: real, b: real)
    requires c > 0.0 && a < b
    ensures c * a < c * b
  {
    assert c * (b - a) > 0.0;
    assert c * (b - a) == c * b - c * a;
  }

  /** For a positive divisor, an integer quotient bracketing `n` is the floor of the real quotient. */
  lemma FloorOfRealQuotient(n: int, d: int, q: int)
    requires d > 0 && d * q <= n < d * q + d
    ensures (q as real) <= (n as real) / (d as real) < (q as real) + 1.0
  {
    var x, dr, qr := (n as real) / (d as real), d as real, q as real;
    assert dr * x == n as real;
    assert ((d * q) as real) == dr * qr;
    assert ((d * q + d) as real) == dr * (qr + 1.0);
    if x < qr {
      ScaleStrict(dr, x, qr);
    } else if x > qr + 1.0 {
      ScaleStrict(dr, qr + 1.0, x);
    } else if x == qr + 1.0 {
      // then dr * x would be (d * q + d) as real, which exceeds n
    }
  }

  /** Python's `a // b`: the floor of the real quotient. */
  function FloorDiv(a: int, b: int): (q: int)
    requires b != 0
    ensures b > 0 ==> b * q <= a < b * q + b
    ensures b < 0 ==> b * q + b < a <= b * q
    ensures (q as real) <= (a as real) / (b as real) < (q as real) + 1.0
  {
    if b > 0 then
      FloorOfRealQuotient(a, b, a / b);
      a / b
    else
      FloorOfRealQuotient(-a, -b, (-a) / (-b));
      assert ((-a) as real) / ((-b) as real) == (a as real) / (b as real);
      (-a) / (-b)
  }

  /** Python's `a % b`: the remainder of floor division, with the sign of `b`. */
  function Mod(a: int, b: int): (r: int)
    requires b != 0
    ensures a == b * FloorDiv(a, b) + r
    ensures b > 0 ==> 0 <= r < b
    ensures b < 0 ==> b < r <= 0
  {
    a - b * FloorDiv(a, b)
  }

  lemma MulAtLeastOnce(b: int, k: int)
    requires b > 0 && k >= 1
    ensures b * k >= b
  {
    assert b * k == b * (k - 1) + b;
  }

  /** Floor division is determined by its bracketing: any quotient bracketing `a` is `a // b`. */
  lemma {:induction false} FloorDivUnique(a: int, b: int, q: int)
    requires b > 0 && b * q <= a < b * q + b
    ensures FloorDiv(a, b) == q
  {
    var p := FloorDiv(a, b);
    if p < q {
      MulAtLeastOnce(b, q - p);
    } else if p > q {
      MulAtLeastOnce(b, p - q);
    }
  }

  /** A multiple of `b` leaves no remainder, and its quotient is the multiplier. */
  lemma MultipleHasZeroMod(b: int, k: int)
    requires b > 0
    ensures FloorDiv(b * k, b) == k && Mod(b * k, b) == 0
  {
    FloorDivUnique(b * k, b, k);
  }

  /** Zero remainder means `a` is `b` times its quotient. */
  lemma ZeroModIsMultiple(a: int, b: int)
    requires b != 0 && Mod(a, b) == 0
    ensures a == b * FloorDiv(a, b)
  {
  }

  /** The character for a decimal digit. */
  function DigitChar(d: int): (c: char)
    requires 0 <= d < 10
    ensures '0' <= c <= '9' && (c as int) - ('0' as int) == d
  {
    (('0' as int) + d) as char
  }

  predicate IsDigit(c: char) {
    '0' <= c <= '9'
  }

  predicate AllDigits(s: string) {
    forall i :: 0 <= i < |s| ==> IsDigit(s[i])
  }

  /** The decimal numeral of a natural number, as Python's `str` writes it. */
  function NatToDecimal(n: nat): (s: string)
    ensures 1 <= |s| && AllDigits(s)
    ensures |s| > 1 ==> s[0] != '0'
    decreases n
  {
    if n < 10 then [DigitChar(n)] else NatToDecimal(n / 10) + [DigitChar(n % 10)]
  }

  /** Python's `str(n)` for an int: an optional minus sign and the numeral of `|n|`. */
  function Str(n: int): (s: string)
    ensures 1 <= |s|
    ensures forall i :: 0 <= i < |s| ==> IsDigit(s[i]) || (i == 0 && s[i] == '-')
  {
    if n < 0 then "-" + NatToDecimal(-n) else NatToDecimal(n)
  }

  /** The value of a string of digits, read most significant first. */
  function DecimalValue(s: string): (v: nat)
    requires AllDigits(s)
  {
    if s == [] then 0
    else DecimalValue(s[..|s| - 1]) * 10 + ((s[|s| - 1] as int) - ('0' as int))
  }

  /** Reading back an int written by `Str`: an optional `-` and at least one digit. */
  function ParseInt(s: string): (r: Option<int>)
    ensures r.Some? ==> 1 <= |s|
  {
    if |s| >= 2 && s[0] == '-' && AllDigits(s[1..]) then Some(0 - DecimalValue(s[1..]) as int)
    else if |s| >= 1 && AllDigits(s) then Some(DecimalValue(s))
    else None
  }

  lemma {:induction false} DecimalRoundTrip(n: nat)
    ensures DecimalValue(NatToDecimal(n)) == n
    decreases n
  {
    if n >= 10 {
      var s := NatToDecimal(n);
      DecimalRoundTrip(n / 10);
      assert s[..|s| - 1] == NatToDecimal(n / 10);
    }
  }

  /** `Str` loses nothing: parsing its output gives back the int. */
  lemma {:induction false} ParseStr(n: int)
    ensures ParseInt(Str(n)) == Some(n)
  {
    if n < 0 {
      DecimalRoundTrip(-n);
      assert Str(n)[1..] == NatToDecimal(-n);
    } else {
      DecimalRoundTrip(n);
    }
  }
}
