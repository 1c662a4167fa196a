/** Request ids on the wire: rendered in decimal inside quotes, and parsed back from
    whatever string a response carries. */
module RpcIds {
  import opened Options

  predicate IsDigit(c: char) {
    '0' <= c <= '9'
  }

  function Digit(d: nat): (c: char)
    requires d < 10
    ensures IsDigit(c)
  {
    ['0', '1', '2', '3', '4', '5', '6', '7', '8', '9'][d]
  }

  function DigitValue(c: char): (d: nat)
    requires IsDigit(c)
    ensures d < 10
  {
    (c as int) - ('0' as int)
  }

  /** How `format!` renders an id. */
  function Decimal(n: nat): (s: string)
    ensures |s| > 0
  {
    if n < 10 then [Digit(n)] else Decimal(n / 10) + [Digit(n % 10)]
  }

  predicate AllDigits(s: string) {
    forall i :: 0 <= i < |s| ==> IsDigit(s[i])
  }

  function DigitsValue(s: string): nat
    requires AllDigits(s)
  {
    if s == "" then 0 else 10 * DigitsValue(s[..|s| - 1]) + DigitValue(s[|s| - 1])
  }

  /** `str::parse::<usize>`: an optional plus sign, then at least one digit and nothing else,
      denoting a number below `modulus`. */
  function ParseUsize(s: string, modulus: nat): Option<nat> {
    var digits := if |s| > 0 && s[0] == '+' then s[1..] else s;
    if digits != "" && AllDigits(digits) && DigitsValue(digits) < modulus then Some(DigitsValue(digits)) else None
  }

  lemma {:induction false} DecimalDigits(n: nat)
    ensures AllDigits(Decimal(n)) && DigitsValue(Decimal(n)) == n
    decreases n
  {
    if n < 10 {
      assert Decimal(n)[..0] == "";
    } else {
      DecimalDigits(n / 10);
      var s := Decimal(n);
      assert s[..|s| - 1] == Decimal(n / 10);
    }
  }

  /** A response that echoes the id of a request, as section 5 of JSON-RPC 2.0 demands, is
      read back as that id. */
  lemma EchoedIdParses(id: nat, modulus: nat)
    requires id < modulus
    ensures ParseUsize(Decimal(id), modulus) == Some(id)
  {
    DecimalDigits(id);
    assert IsDigit(Decimal(id)[0]);
  }

  // ---- what is accepted ----

  /** The number that ASCII digits stand for. */
  function Number(s: string): nat
    requires AllDigits(s)
  {
    if s == "" then 0 else 10 * Number(s[..|s| - 1]) + (s[|s| - 1] as int - 48)
  }

  lemma {:induction false} DigitsAreNumber(s: string)
    requires AllDigits(s)
    ensures DigitsValue(s) == Number(s)
    decreases |s|
  {
    if s != "" {
      DigitsAreNumber(s[..|s| - 1]);
    }
  }

  ghost predicate Denotes(s: string, n: nat) {
    s != "" && AllDigits(s) && Number(s) == n
  }

  /** Exactly the digit strings, with or without a plus sign, of numbers below the modulus. */
  lemma ParsesExactlyWhen(s: string, modulus: nat, n: nat)
    ensures ParseUsize(s, modulus) == Some(n)
       <==> n < modulus && (Denotes(s, n) || (s != "" && s[0] == '+' && Denotes(s[1..], n)))
  {
    if AllDigits(s) {
      DigitsAreNumber(s);
    }
    if s != "" && AllDigits(s[1..]) {
      DigitsAreNumber(s[1..]);
    }
    assert !IsDigit('+');
  }

  /** An id is rendered without leading zeros. */
  lemma {:induction false} DecimalIsShortest(n: nat)
    ensures Denotes(Decimal(n), n) && (n > 0 ==> Decimal(n)[0] != '0')
  {
    DecimalDigits(n);
    DigitsAreNumber(Decimal(n));
    if n >= 10 {
      DecimalIsShortest(n / 10);
    }
  }
}
