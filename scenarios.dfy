/** Concrete inputs and what the identifier types do with them. */
module Scenarios {
  import opened Wrappers
  import Codes
  import opened FlightNumbers

  /** "JFK" is an airport code whose text is "JFK"; "jfk" is refused at its first char. */
  lemma AirportCodeScenarios()
    ensures Codes.FromStr(Codes.Airport, "JFK").Ok?
    ensures Codes.FromStr(Codes.Airport, "JFK").value.AsStr() == "JFK"
    ensures Codes.FromStr(Codes.Airport, "jfk") == Err(Codes.InvalidCharacter('j'))
    ensures Codes.FromStr(Codes.City, "NY1") == Err(Codes.InvalidCharacter('1'))
  {
    Codes.TextRoundTrip(Codes.Airport, "JFK");
  }

  /** Digits are allowed in aircraft and airline codes, and the length is checked before the chars. */
  lemma AlphanumericCodeScenarios()
    ensures Codes.FromStr(Codes.Aircraft, "73G").Ok?
    ensures Codes.FromStr(Codes.Airline, "AA1") == Err(Codes.InvalidLength(3))
    ensures Codes.FromStr(Codes.Airline, "a") == Err(Codes.InvalidLength(1))
    ensures Codes.FromStr(Codes.Aircraft, "éA") == Err(Codes.InvalidCharacter('é'))
  {
  }

  /** The range limits of `from_u16`. */
  lemma FromU16Scenarios()
    ensures FromU16(1).Ok? && FromU16(9999).Ok?
    ensures FromU16(0) == Err(InvalidNumber) && FromU16(10000) == Err(InvalidNumber)
  {
  }

  /** Leading zeros and one `+` are accepted. */
  lemma FromStrAcceptedScenarios()
    ensures FromStr("0001") == Ok(FlightNumber(1))
    ensures FromStr("+0042") == Ok(FlightNumber(42))
    ensures FromStr("9999") == Ok(FlightNumber(9999))
  {
    assert "0001"[1..] == "001" && "001"[1..] == "01" && "01"[1..] == "1";
    assert Accumulate("0001", 0) == Accumulate("001", 0) == Accumulate("01", 0)
        == Accumulate("1", 0) == Accumulate("", 1);
    assert "+0042"[1..] == "0042";
    assert "0042"[1..] == "042" && "042"[1..] == "42" && "42"[1..] == "2";
    assert Accumulate("0042", 0) == Accumulate("042", 0) == Accumulate("42", 0)
        == Accumulate("2", 4) == Accumulate("", 42);
    assert "9999"[1..] == "999" && "999"[1..] == "99" && "99"[1..] == "9";
    assert Accumulate("9999", 0) == Accumulate("999", 9) == Accumulate("99", 99)
        == Accumulate("9", 999) == Accumulate("", 9999);
  }

  /** Text that is not a `u16` against text that is one but out of range. */
  lemma FromStrRefusedScenarios()
    ensures FromStr("0000") == Err(InvalidNumber)
    ensures FromStr("10000") == Err(InvalidNumber)
    ensures FromStr("70000") == Err(NotANumber)
    ensures FromStr("abcd") == Err(NotANumber)
    ensures FromStr("") == Err(NotANumber)
    ensures FromStr("-1") == Err(NotANumber)
  {
    assert "0000"[1..] == "000" && "000"[1..] == "00" && "00"[1..] == "0";
    assert Accumulate("0000", 0) == Accumulate("000", 0) == Accumulate("00", 0)
        == Accumulate("0", 0) == Accumulate("", 0);
    assert "10000"[1..] == "0000";
    assert Accumulate("10000", 0) == Accumulate("0000", 1) == Accumulate("000", 10)
        == Accumulate("00", 100) == Accumulate("0", 1000) == Accumulate("", 10000);
    assert "70000"[1..] == "0000";
    assert Accumulate("70000", 0) == Accumulate("0000", 7) == Accumulate("000", 70)
        == Accumulate("00", 700) == Accumulate("0", 7000) == None;
  }

  /** Four zero-padded digits. */
  lemma DisplayScenarios()
    ensures FlightNumber(7).Display() == "0007"
    ensures FlightNumber(1234).Display() == "1234"
    ensures FromStr("123").Ok? && FromStr("123").value.Display() == "0123"
  {
  }
}
