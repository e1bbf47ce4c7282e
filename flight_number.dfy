/**
 * The numeric part of a flight designator: a `u16` kept in 1..=9999, built
 * from a number or from text, and printed as four zero-padded digits.
 */
module FlightNumbers {
  import opened Wrappers
  import opened Utf8
  import opened Lexicographic

  newtype u16 = x: int | 0 <= x < 0x1_0000

  const MaxU16: int := 0xFFFF

  datatype FlightNumberParseError = NotANumber | InvalidNumber

  datatype FlightNumber = FlightNumber(value: u16) {

    ghost predicate Valid() {
      1 <= value <= 9999
    }

    /** `to_u16`: the stored number. */
    function ToU16(): (n: u16)
      ensures Valid() ==> 1 <= n <= 9999
    {
      value
    }

    /** `Display` with `{:04}`: the decimal digits of the number, padded with zeros to at least four. */
    function Display(): (s: string)
      ensures |s| >= 4 && AllDigits(s) && DecimalValue(s) == value as nat
      ensures Valid() ==> |s| == 4
    {
      var digits := DecimalDigits(value as nat);
      DecimalDigitsFacts(value as nat);
      assert Pow10(4) == 10000;
      LeadingZeros(if |digits| < 4 then 4 - |digits| else 0, digits);
      PadZeros(digits, 4)
    }

    /** The derived `Ord`: numeric on the stored number. */
    function Cmp(other: FlightNumber): (r: Ordering)
      ensures r == Equal <==> this == other
      ensures r == Less <==> value < other.value
    {
      if value < other.value then Less
      else if value > other.value then Greater
      else Equal
    }
  }

  /** `from_u16`: accepts exactly 1..=9999 and stores the number as given. */
  function FromU16(num: u16): (r: Result<FlightNumber, FlightNumberParseError>)
    ensures r.Ok? <==> 1 <= num <= 9999
    ensures r.Ok? ==> r.value.Valid() && r.value.ToU16() == num
    ensures r.Err? ==> r.error == InvalidNumber
  {
    if num >= 1 && num <= 9999 then Ok(FlightNumber(num))
    else Err(InvalidNumber)
  }

  predicate AllDigits(s: string) {
    forall i :: 0 <= i < |s| ==> IsAsciiDigit(s[i])
  }

  function DigitValue(c: char): (d: nat)
    requires IsAsciiDigit(c)
    ensures d < 10
  {
    c as int - '0' as int
  }

  function DigitChar(d: nat): (c: char)
    requires d < 10
    ensures IsAsciiDigit(c) && DigitValue(c) == d
  {
    ('0' as int + d) as char
  }

  function Pow10(n: nat): (p: nat)
    ensures p >= 1
  {
    if n == 0 then 1 else 10 * Pow10(n - 1)
  }

  /** The number a string of decimal digits denotes, most significant digit first. */
  function DecimalValue(s: string): nat
    requires AllDigits(s)
  {
    if s == [] then 0 else DigitValue(s[0]) * Pow10(|s| - 1) + DecimalValue(s[1..])
  }

  /** The shortest decimal digits of `n`. */
  function DecimalDigits(n: nat): string {
    if n < 10 then [DigitChar(n)] else DecimalDigits(n / 10) + [DigitChar(n % 10)]
  }

  /** The zero padding of `{:0w}`: zeros on the left up to `width` chars. */
  function PadZeros(s: string, width: nat): (r: string)
    ensures |r| == if |s| >= width then |s| else width
  {
    if |s| >= width then s else seq(width - |s|, _ => '0') + s
  }

  /** The digits after an optional leading `+`. */
  function Unsigned(s: string): string {
    if |s| > 0 && s[0] == '+' then s[1..] else s
  }

  /** The texts `u16::from_str` accepts: an optional `+`, then one or more digits denoting at most 65535. */
  predicate IsU16Text(s: string) {
    var d := Unsigned(s);
    |d| > 0 && AllDigits(d) && DecimalValue(d) <= MaxU16
  }

  /**
   * The digit loop of `u16::from_str`: each char must be a decimal digit;
   * the running value is multiplied by ten and the digit added, both checked
   * for overflow. It succeeds exactly when every char is a digit and the
   * value stays within 65535, and then yields that value.
   */
  function Accumulate(digits: string, acc: u16): (r: Option<u16>)
    ensures r == if AllDigits(digits) && acc as int * Pow10(|digits|) + DecimalValue(digits) <= MaxU16
                 then Some((acc as int * Pow10(|digits|) + DecimalValue(digits)) as u16)
                 else None
  {
    if digits == [] then Some(acc)
    else if !IsAsciiDigit(digits[0]) then None
    else
      var d := DigitValue(digits[0]);
      AccumulateStep(digits, acc as nat);
      if acc as int * 10 > MaxU16 then None
      else if acc as int * 10 + d > MaxU16 then None
      else Accumulate(digits[1..], (acc as int * 10 + d) as u16)
  }

  /** One turn of the digit loop: the value of the text after a leading digit, and a lower bound. */
  lemma AccumulateStep(digits: string, acc: nat)
    requires digits != [] && IsAsciiDigit(digits[0])
    ensures AllDigits(digits) <==> AllDigits(digits[1..])
    ensures AllDigits(digits) ==>
      && acc * Pow10(|digits|) + DecimalValue(digits)
         == (acc * 10 + DigitValue(digits[0])) * Pow10(|digits| - 1) + DecimalValue(digits[1..])
      && acc * Pow10(|digits|) + DecimalValue(digits) >= acc * 10 + DigitValue(digits[0])
  {
    var d, rest := DigitValue(digits[0]), digits[1..];
    var p := Pow10(|rest|);
    assert AllDigits(digits) <==> AllDigits(rest) by {
      assert forall i :: 0 <= i < |rest| ==> rest[i] == digits[i + 1];
    }
    if AllDigits(digits) {
      assert Pow10(|digits|) == 10 * p;
      assert DecimalValue(digits) == d * p + DecimalValue(rest);
      ShiftDigit(acc, d, p, DecimalValue(rest));
      ShiftedAtLeast(acc * 10 + d, p);
    }
  }

  /**
   * `<u16 as FromStr>::from_str`: the empty text and a lone sign are refused,
   * one leading `+` is skipped (a `-` is not, and then fails as a digit),
   * and the rest goes through the digit loop. It accepts exactly the
   * `IsU16Text` texts, with the value they denote.
   */
  function ParseU16(s: string): (r: Option<u16>)
    ensures r.Some? <==> IsU16Text(s)
    ensures IsU16Text(s) ==> r == Some(DecimalValue(Unsigned(s)) as u16)
  {
    if s == [] then None
    else if s == ['+'] || s == ['-'] then None
    else if s[0] == '+' then Accumulate(s[1..], 0)
    else Accumulate(s, 0)
  }

  /**
   * `FlightNumber::from_str`: text that is not a `u16` gives NotANumber, a
   * `u16` outside 1..=9999 gives InvalidNumber, and otherwise the flight
   * number has the denoted value.
   */
  function FromStr(value: string): (r: Result<FlightNumber, FlightNumberParseError>)
    ensures r == Err(NotANumber) <==> !IsU16Text(value)
    ensures r == Err(InvalidNumber) <==> IsU16Text(value) && !(1 <= DecimalValue(Unsigned(value)) <= 9999)
    ensures r.Ok? <==> IsU16Text(value) && 1 <= DecimalValue(Unsigned(value)) <= 9999
    ensures r.Ok? ==> r.value.Valid() && r.value.ToU16() as nat == DecimalValue(Unsigned(value))
  {
    match ParseU16(value)
    case None => Err(NotANumber)
    case Some(num) => FromU16(num)
  }

  lemma ShiftDigit(acc: nat, d: nat, p: nat, rest: nat)
    ensures (acc * 10 + d) * p + rest == acc * (10 * p) + d * p + rest
  {
  }

  lemma ShiftedAtLeast(x: nat, p: nat)
    requires p >= 1
    ensures x * p >= x
  {
  }

  /** `from_str` agrees with `from_u16` on every text that is a `u16`. */
  lemma FromStrDelegates(s: string, n: u16)
    requires ParseU16(s) == Some(n)
    ensures FromStr(s) == FromU16(n)
  {
  }

  lemma {:induction false} DecimalValueAppend(s: string, c: char)
    requires AllDigits(s) && IsAsciiDigit(c)
    ensures AllDigits(s + [c])
    ensures DecimalValue(s + [c]) == DecimalValue(s) * 10 + DigitValue(c)
  {
    if s != [] {
      DecimalValueAppend(s[1..], c);
      assert (s + [c])[1..] == s[1..] + [c];
      var d, p := DigitValue(s[0]), Pow10(|s| - 1);
      assert d * (10 * p) == d * p * 10;
    }
  }

  /** The decimal digits of `n` denote `n`, and a number below 10^k needs at most k of them. */
  lemma {:induction false} DecimalDigitsFacts(n: nat)
    ensures AllDigits(DecimalDigits(n)) && DecimalValue(DecimalDigits(n)) == n
    ensures forall k: nat :: k >= 1 && n < Pow10(k) ==> |DecimalDigits(n)| <= k
  {
    if n >= 10 {
      DecimalDigitsFacts(n / 10);
      DecimalValueAppend(DecimalDigits(n / 10), DigitChar(n % 10));
      forall k: nat | k >= 1 && n < Pow10(k) ensures |DecimalDigits(n)| <= k {
        if k > 1 {
          assert n / 10 < Pow10(k - 1);
        }
      }
    }
  }

  /** Zeros on the left do not change the value. */
  lemma {:induction false} LeadingZeros(z: nat, s: string)
    requires AllDigits(s)
    ensures AllDigits(PadZeros(s, |s| + z))
    ensures DecimalValue(PadZeros(s, |s| + z)) == DecimalValue(s)
  {
    if z > 0 {
      var r := PadZeros(s, |s| + z);
      LeadingZeros(z - 1, s);
      assert r == ['0'] + PadZeros(s, |s| + z - 1);
      assert r[1..] == PadZeros(s, |s| + z - 1);
    }
  }

  /** The printed text of any flight number reads back as its number. */
  lemma DisplayParsesBack(f: FlightNumber)
    ensures ParseU16(f.Display()) == Some(f.value)
  {
    var s := f.Display();
    assert Unsigned(s) == s;
  }

  /** Printing a valid flight number and parsing the four digits back gives the same flight number. */
  lemma DisplayRoundTrip(f: FlightNumber)
    requires f.Valid()
    ensures FromStr(f.Display()) == Ok(f)
  {
    DisplayParsesBack(f);
  }

  /** Among flight numbers, the derived order is a strict total order. */
  lemma CmpIsStrictTotalOrder(a: FlightNumber, b: FlightNumber, c: FlightNumber)
    ensures b.Cmp(a) == a.Cmp(b).Reverse()
    ensures a.Cmp(b) == Less && b.Cmp(c) == Less ==> a.Cmp(c) == Less
  {
  }
}
