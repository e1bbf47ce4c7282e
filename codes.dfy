/**
 * The four fixed-width IATA codes: aircraft type code (3 chars, A-Z0-9),
 * airline designator (2 chars, A-Z0-9), airport code (3 chars, A-Z) and city
 * code (3 chars, A-Z). They share one shape, so they are one value type `Code`
 * tagged with its `Kind`, which fixes the width and the alphabet and stands
 * for the Rust type: only codes of one kind are ever compared.
 */
module Codes {
  import opened Wrappers
  import opened Utf8
  import opened Lexicographic

  datatype Kind = Aircraft | Airline | Airport | City {

    /** The length of the stored byte array: two bytes for an airline designator, three otherwise. */
    function Width(): (w: nat)
      ensures w == 2 <==> this == Airline
      ensures w == 3 <==> this != Airline
    {
      match this
      case Airline => 2
      case Aircraft | Airport | City => 3
    }

    /**
     * The character test in `from_str`: only ASCII chars pass, never a
     * lower-case letter, and a digit exactly for aircraft and airline codes.
     */
    predicate Allows(c: char)
      ensures Allows(c) ==> IsAsciiChar(c) && !('a' <= c <= 'z')
      ensures IsAsciiDigit(c) ==> (Allows(c) <==> this == Aircraft || this == Airline)
      ensures IsAsciiUppercase(c) ==> Allows(c)
    {
      match this
      case Aircraft | Airline => IsAsciiUppercase(c) || IsAsciiDigit(c)
      case Airport | City => IsAsciiUppercase(c)
    }
  }

  /**
   * A code: its kind and its stored bytes. Nothing but the constructors
   * stops the bytes from being anything, since `from_bytes_unchecked` trusts
   * its caller; `Valid` is the invariant that `from_str` establishes.
   */
  datatype Code = Code(kind: Kind, bytes: seq<byte>) {

    ghost predicate Valid() {
      && |bytes| == kind.Width()
      && forall i :: 0 <= i < |bytes| ==> kind.Allows(bytes[i] as int as char)
    }

    /** `as_bytes`: the stored bytes. */
    function AsBytes(): (r: seq<byte>)
      ensures Valid() ==> |r| == kind.Width() && IsAsciiBytes(r)
    {
      bytes
    }

    /** `as_str`: the stored bytes read as text; their UTF-8 encoding is the stored bytes. */
    function AsStr(): (s: string)
      requires IsAsciiBytes(bytes)
      ensures |s| == |bytes| && Encode(s) == bytes
      ensures Valid() ==> forall i :: 0 <= i < |s| ==> kind.Allows(s[i])
    {
      AsciiText(bytes)
    }

    /** `Display`: prints the stored text unchanged. */
    function Display(): (s: string)
      requires IsAsciiBytes(bytes)
      ensures Encode(s) == bytes
    {
      AsStr()
    }

    /** The derived `Ord`: lexicographic on the stored bytes; only codes of one type are compared. */
    function Cmp(other: Code): (r: Ordering)
      requires kind == other.kind
      ensures r == Equal <==> this == other
    {
      Compare(bytes, other.bytes)
    }
  }

  /** The `*CodeParseError` enums, identical for the four kinds. */
  datatype CodeParseError = InvalidLength(len: nat) | InvalidCharacter(ch: char)

  /** The position of the first char of `s` outside the alphabet of `k`, if any. */
  function FirstDisallowed(k: Kind, s: string): (r: Option<nat>)
    ensures r.None? <==> forall j :: 0 <= j < |s| ==> k.Allows(s[j])
    ensures r.Some? ==> r.value < |s| && !k.Allows(s[r.value])
    ensures r.Some? ==> forall j :: 0 <= j < r.value ==> k.Allows(s[j])
  {
    if s == [] then None
    else if !k.Allows(s[0]) then Some(0)
    else match FirstDisallowed(k, s[1..])
      case None => None
      case Some(i) => Some(i + 1)
  }

  /**
   * What `from_str` computes: the byte length is checked first; then the
   * first char outside the alphabet is reported; otherwise the text's bytes
   * are stored. A length error comes exactly for the wrong byte length and
   * carries it, whatever the chars; a character error names a char of the
   * text that the alphabet refuses.
   */
  function FromStr(k: Kind, value: string): (r: Result<Code, CodeParseError>)
    ensures r.Err? && r.error.InvalidLength? <==> ByteLen(value) != k.Width()
    ensures r.Err? && r.error.InvalidLength? ==> r.error.len == ByteLen(value)
    ensures r.Err? && r.error.InvalidCharacter? ==> !k.Allows(r.error.ch) && r.error.ch in value
    ensures r.Ok? ==> r.value.kind == k && r.value.AsBytes() == Encode(value)
  {
    if ByteLen(value) != k.Width() then
      Err(InvalidLength(ByteLen(value)))
    else match FirstDisallowed(k, value)
      case Some(i) => Err(InvalidCharacter(value[i]))
      case None => Ok(Code(k, Encode(value)))
  }

  /** `<[u8]>::copy_from_slice`, which the source calls with slices of equal length. */
  method CopyFromSlice(dst: array<byte>, src: seq<byte>)
    requires dst.Length == |src|
    modifies dst
    ensures dst[..] == src
  {
    var i := 0;
    while i < dst.Length
      invariant 0 <= i <= dst.Length
      invariant dst[..i] == src[..i]
    {
      dst[i] := src[i];
      i := i + 1;
    }
  }

  /** `from_str`: a length check, a scan that returns at the first bad char, then a copy into `[0; N]`. */
  method Parse(k: Kind, value: string) returns (r: Result<Code, CodeParseError>)
    ensures r == FromStr(k, value)
  {
    var len := ByteLen(value);
    if len != k.Width() {
      return Err(InvalidLength(len));
    }
    var i := 0;
    while i < |value|
      invariant 0 <= i <= |value|
      invariant forall j :: 0 <= j < i ==> k.Allows(value[j])
    {
      var c := value[i];
      if k.Allows(c) {
        i := i + 1;
        continue;
      } else {
        return Err(InvalidCharacter(c));
      }
    }
    var bytes := new byte[k.Width()];
    CopyFromSlice(bytes, Encode(value));
    return Ok(Code(k, bytes[..]));
  }

  /**
   * `from_bytes_unchecked`: copies the slice into `[0; N]` without checking
   * it (the copy panics unless the slice has length N). Given the bytes of a
   * code of that kind, it rebuilds that very code; the result is valid
   * exactly when the bytes satisfy the invariant.
   */
  method FromBytesUnchecked(k: Kind, bytes: seq<byte>) returns (c: Code)
    requires |bytes| == k.Width()
    ensures c.kind == k && c.AsBytes() == bytes
    ensures forall x: Code :: x.kind == k && x.AsBytes() == bytes ==> c == x
    ensures c.Valid() <==> forall i :: 0 <= i < |bytes| ==> k.Allows(bytes[i] as int as char)
  {
    var mine := new byte[k.Width()];
    CopyFromSlice(mine, bytes);
    c := Code(k, mine[..]);
  }

  /** At the right length, the error names the first char outside the alphabet, and only such a char. */
  lemma FirstBadCharacterReported(k: Kind, value: string, i: nat)
    requires ByteLen(value) == k.Width()
    requires i < |value| && !k.Allows(value[i])
    requires forall j :: 0 <= j < i ==> k.Allows(value[j])
    ensures FromStr(k, value) == Err(InvalidCharacter(value[i]))
  {
  }

  /** `from_str` succeeds exactly on texts of `Width` chars that are all in the alphabet. */
  lemma {:induction false} SuccessIff(k: Kind, value: string)
    ensures FromStr(k, value).Ok?
        <==> |value| == k.Width() && forall i :: 0 <= i < |value| ==> k.Allows(value[i])
  {
    if forall i :: 0 <= i < |value| ==> k.Allows(value[i]) {
      AsciiEncode(value);
    }
  }

  /** A parsed code is valid, of the requested kind, and its text is the input: no case folding. */
  lemma {:induction false} TextRoundTrip(k: Kind, value: string)
    requires FromStr(k, value).Ok?
    ensures FromStr(k, value).value.Valid()
    ensures FromStr(k, value).value.kind == k
    ensures FromStr(k, value).value.AsStr() == value
    ensures FromStr(k, value).value.AsBytes() == Encode(value)
  {
    SuccessIff(k, value);
    AsciiEncode(value);
    AsciiTextOfEncode(value);
  }

  /** Printing a valid code and parsing the text back gives the same code. */
  lemma {:induction false} DisplayRoundTrip(c: Code)
    requires c.Valid()
    ensures FromStr(c.kind, c.Display()) == Ok(c)
  {
    var s := c.Display();
    SuccessIff(c.kind, s);
  }

  /** Among codes of one kind, the derived order is a strict total order. */
  lemma CmpIsStrictTotalOrder(a: Code, b: Code, d: Code)
    requires a.kind == b.kind == d.kind
    ensures a.Cmp(b) == Equal <==> a == b
    ensures b.Cmp(a) == a.Cmp(b).Reverse()
    ensures a.Cmp(b) == Less && b.Cmp(d) == Less ==> a.Cmp(d) == Less
  {
    CompareReverse(a.bytes, b.bytes);
    if a.Cmp(b) == Less && b.Cmp(d) == Less {
      CompareTransitive(a.bytes, b.bytes, d.bytes);
    }
  }
}
