# iata-types in Dafny

A model of the Rust crate `iata-types`: five validated IATA identifier value types.

- **Fixed-width codes.** There are four: aircraft type code (3 chars, `A-Z0-9`), airline designator (2 chars, `A-Z0-9`), airport code (3 chars, `A-Z`) and city code (3 chars, `A-Z`).
  - The source writes them as four parallel structs over `[u8; N]`, sharing two macros. Here they are one value type `Codes.Code`, tagged with a `Codes.Kind` that fixes the width and the alphabet.
  - The kind stands for the Rust type. For example, an `AirportCode` is a `Code` of kind `Airport`, and only codes of one kind are compared.
  - `from_str` is the method `Codes.Parse`. It has the source's length check, a char loop that returns at the first bad char, and a copy into a zeroed array. It is proved equal to the specification function `Codes.FromStr`, and the lemmas state the properties of that function.
  - `from_bytes_unchecked` is the method `Codes.FromBytesUnchecked`.
- **Flight number.** `FlightNumbers.FlightNumber` holds a `u16` that `from_u16` keeps within 1..=9999.
  - Its `from_str` is `FlightNumbers.FromStr`. It is built on a model of Rust's `u16::from_str`: the empty text and a lone sign are refused, one leading `+` is allowed, and the digit loop checks each multiply and add for overflow.
  - `Display` pads to four digits with zeros.

Text is a Dafny `string`. A Dafny `char` is a Unicode scalar value, as a Rust `char` is.
- `str::len` counts UTF-8 bytes, not chars. It is modelled as `Utf8.ByteLen`, and `str::as_bytes` as the UTF-8 encoder `Utf8.Encode`. So the length check sees the byte length. For example, "éA" has 3 bytes, passes the aircraft code's length check, and then fails on 'é'.
- Stored bytes are `Utf8.byte` values, and the `u16` is a newtype over 0..65535.

The derived comparisons are modelled as `Cmp` functions. For codes, `Cmp` is `Lexicographic.Compare`, the slice order Rust derives for `[u8; N]`. For flight numbers it is numeric.

The crate's derived serde `Deserialize` does not re-run validation, so it can build values that break the invariant. That path is outside this model (see below).

## Model

| member | source | states |
|---|---|---|
| Utf8.ByteLen | src/lib.rs:78 | `str::len` counts UTF-8 bytes, so it is never below the number of chars |
| Utf8.Encode | src/lib.rs:90 | `str::as_bytes` yields exactly `len()` bytes |
| Utf8.CharLen | src/lib.rs:78 | a char takes 1 to 4 bytes, and exactly 1 when it is ASCII |
| Utf8.EncodeChar | src/lib.rs:90 | a char's UTF-8 bytes number `CharLen`; an ASCII char is its own code; other chars give only bytes of 0x80 and above |
| Utf8.AsciiEncode | src/lib.rs:89-90 | text of ASCII chars has one byte per char, and each byte is that char's code |
| Utf8.AsciiText | src/lib.rs:11-13 | `str::from_utf8(..).unwrap()` on ASCII bytes cannot fail; the text has one char per byte with the same code, and its encoding gives the bytes back |
| Utf8.AsciiTextOfEncode | src/lib.rs:11-13 | decoding the bytes of ASCII text gives that text back |
| Lexicographic.Compare | src/lib.rs:32-33 | the derived `Ord` on byte arrays says Equal exactly when the derived `Eq` holds |
| Lexicographic.CompareReverse | src/lib.rs:32 | swapping the operands reverses the derived ordering |
| Lexicographic.CompareTransitive | src/lib.rs:32 | the derived Less is transitive |
| Lexicographic.CompareLessIsDictionaryOrder | src/lib.rs:32 | Less holds exactly when the first array is a proper prefix of the second, or is smaller at the first position where they differ |
| Codes.Code.AsBytes | src/lib.rs:15-17 | `as_bytes` returns the stored bytes; for a valid code these are `Width` ASCII bytes |
| Codes.Code.AsStr | src/lib.rs:11-13 | `as_str` returns text whose UTF-8 bytes are exactly the stored bytes, one char per byte; for a valid code every char is in the kind's alphabet |
| Codes.Code.Display | src/lib.rs:21-29 | `Display` prints text whose bytes are the stored bytes, unchanged |
| Codes.Code.Cmp | src/lib.rs:32-33 | the derived comparison of two codes of one type says Equal exactly when the codes are equal |
| Codes.CmpIsStrictTotalOrder | src/lib.rs:104-105 | among codes of one type, the derived order agrees with `Eq`, is antisymmetric and is transitive |
| Codes.Kind.Width | src/lib.rs:78 | the stored array has 2 bytes for an airline designator (lib.rs:151) and 3 for the other kinds (lib.rs:78, 216, 279) |
| Codes.Kind.Allows | src/lib.rs:83 | the alphabet admits only ASCII chars and never a lower-case letter; it admits every upper-case letter; it admits digits exactly for aircraft and airline codes (lib.rs:156), not for airport and city codes (lib.rs:220, 283) |
| Codes.FromStr | src/lib.rs:77-92 | InvalidLength comes exactly when the byte length is not the width, and carries that byte length whatever the chars are; InvalidCharacter names a char of the input that the alphabet refuses; success stores the input's bytes under the requested kind |
| Codes.FirstDisallowed | src/lib.rs:82-88 | finds the first char outside the alphabet: every char before it is allowed, and there is no such char exactly when all chars are allowed |
| Codes.CopyFromSlice | src/lib.rs:89-90 | `copy_from_slice` on slices of equal length leaves the destination equal to the source |
| Codes.Parse | src/lib.rs:77-92 | the loop-and-copy `from_str` computes exactly `FromStr`: the length error, then the first bad char, then the stored bytes |
| Codes.FromBytesUnchecked | src/lib.rs:41-46 | given the bytes of any code of that kind, it rebuilds that very code; it stores the bytes unchanged; it is valid exactly when the bytes meet the invariant; the slice must have length N |
| Codes.FirstBadCharacterReported | src/lib.rs:82-88 | at the right length, InvalidCharacter names the first char outside the alphabet |
| Codes.SuccessIff | src/lib.rs:216-228 | parsing succeeds exactly when the text has `Width` chars and each one is in the kind's alphabet |
| Codes.TextRoundTrip | src/lib.rs:279-292 | a parsed code is valid and of the requested kind; its `as_str` is the input with no case folding, and its `as_bytes` is the input's bytes |
| Codes.DisplayRoundTrip | src/lib.rs:21-29 | parsing the printed text of a valid code gives the same code |
| FlightNumbers.FlightNumber.ToU16 | src/lib.rs:300-302 | `to_u16` returns the stored number, which lies in 1..=9999 for a valid flight number |
| FlightNumbers.FromU16 | src/lib.rs:304-309 | succeeds exactly for 1..=9999, and the result's `to_u16` is the input; otherwise it fails with InvalidNumber |
| FlightNumbers.FlightNumber.Display | src/lib.rs:312-316 | `{:04}` prints only digits, at least four of them and exactly four for a valid number, and they denote the stored number |
| FlightNumbers.FlightNumber.Cmp | src/lib.rs:296-297 | the derived comparison says Equal exactly for equal flight numbers, and Less exactly when the stored number is smaller |
| FlightNumbers.CmpIsStrictTotalOrder | src/lib.rs:296-297 | the derived order on flight numbers is antisymmetric and transitive |
| FlightNumbers.Accumulate | src/lib.rs:347-348 | the overflow-checked digit loop of `u16::from_str` succeeds exactly when every char is a digit and the value is at most 65535; it then yields that value |
| FlightNumbers.ParseU16 | src/lib.rs:347-348 | `u16::from_str` accepts exactly an optional `+` followed by one or more digits denoting at most 65535, and yields their value |
| FlightNumbers.FromStr | src/lib.rs:346-350 | `from_str` gives NotANumber exactly for text that is not a `u16`, InvalidNumber exactly for a `u16` outside 1..=9999, and otherwise a valid flight number holding the denoted value |
| FlightNumbers.FromStrDelegates | src/lib.rs:349 | on text that parses as a `u16`, `from_str` returns what `from_u16` returns for that number |
| FlightNumbers.DecimalDigitsFacts | src/lib.rs:314 | the decimal digits of a number denote it, and a number below 10^k needs at most k digits |
| FlightNumbers.LeadingZeros | src/lib.rs:314 | zero padding on the left keeps the text all digits and does not change its value |
| FlightNumbers.DisplayParsesBack | src/lib.rs:312-316 | the printed text of any flight number parses as a `u16` to its stored number |
| FlightNumbers.DisplayRoundTrip | src/lib.rs:346-350 | parsing the printed text of a valid flight number gives the same flight number |
| Scenarios.AirportCodeScenarios | src/lib.rs:215-229 | "JFK" parses as an airport code whose text is "JFK"; "jfk" is refused with 'j'; the city code "NY1" is refused with '1' |
| Scenarios.AlphanumericCodeScenarios | src/lib.rs:77-92 | the aircraft code "73G" is accepted; the airline codes "AA1" and "a" are refused with lengths 3 and 1; the aircraft code "éA" (3 bytes) is refused with 'é' |
| Scenarios.FromU16Scenarios | src/lib.rs:304-309 | 1 and 9999 are accepted; 0 and 10000 are InvalidNumber |
| Scenarios.FromStrAcceptedScenarios | src/lib.rs:346-350 | "0001", "+0042" and "9999" are accepted with the values 1, 42 and 9999 |
| Scenarios.FromStrRefusedScenarios | src/lib.rs:346-350 | "0000" and "10000" are InvalidNumber; "70000", "abcd", "" and "-1" are NotANumber |
| Scenarios.DisplayScenarios | src/lib.rs:312-316 | 7 prints as "0007" and 1234 as "1234"; "123" parses and prints as "0123" |

## Left out

- serde `Serialize`/`Deserialize`: this is library code outside the crate. The derived `Deserialize` does not re-run validation, so it can build values that break the invariant. The model allows such values, because `Code.Valid` is a predicate and not a type constraint, but it does not model the decoding itself.
- `Hash`, `Debug` and the `std::error::Error::description` strings: these are constant strings and library glue.
- The `Display` texts of the parse errors: not modelled. Two quirks in them go unmodelled as well. The airport and city messages say "expected A-Z0-9", although only `A-Z` is accepted. The city code's description says "airport code parsing error".
- `fmt::Formatter`: each `Display` is a function that returns the printed string.
- Codes.Code.AsStr: requires ASCII storage. The source's `str::from_utf8(..).unwrap()` also succeeds on non-ASCII UTF-8, and panics on other bytes. Such bytes can only come in through `from_bytes_unchecked` or `Deserialize`.
- Codes.Code.Display: has the same ASCII requirement as `AsStr`, which it calls.
- Codes.FromBytesUnchecked: requires a slice of exactly N bytes, where the source panics inside `copy_from_slice`. The `unsafe` marker and its memory aspects are not modelled.
- Codes.Code.Cmp: requires both codes to be of one kind. In the source, codes of different types cannot be compared at all.
