/**
 * Bytes and the parts of Rust's `str` and `char` that the identifier types use:
 * the ASCII class tests of `char`, the UTF-8 byte length `str::len`, the byte
 * view `str::as_bytes`, and `str::from_utf8` on ASCII bytes.
 * A Dafny `char` is a Unicode scalar value, as a Rust `char` is.
 */
module Utf8 {

  newtype byte = x: int | 0 <= x < 0x100

  /** `char::is_ascii_uppercase`. */
  predicate IsAsciiUppercase(c: char) {
    'A' <= c <= 'Z'
  }

  /** `char::is_ascii_digit`. */
  predicate IsAsciiDigit(c: char) {
    '0' <= c <= '9'
  }

  predicate IsAsciiChar(c: char) {
    c as int < 0x80
  }

  predicate IsAsciiBytes(bytes: seq<byte>) {
    forall i :: 0 <= i < |bytes| ==> bytes[i] < 0x80
  }

  /** `char::len_utf8`: how many bytes UTF-8 spends on `c`. */
  function CharLen(c: char): (n: nat)
    ensures 1 <= n <= 4
    ensures n == 1 <==> IsAsciiChar(c)
  {
    var v := c as int;
    if v < 0x80 then 1
    else if v < 0x800 then 2
    else if v < 0x1_0000 then 3
    else 4
  }

  /** The UTF-8 encoding of one scalar value. */
  function EncodeChar(c: char): (r: seq<byte>)
    ensures |r| == CharLen(c)
    ensures IsAsciiChar(c) ==> r == [c as int as byte]
    ensures !IsAsciiChar(c) ==> forall i :: 0 <= i < |r| ==> r[i] >= 0x80
  {
    var v := c as int;
    if v < 0x80 then
      [v as byte]
    else if v < 0x800 then
      [(0xC0 + v / 0x40) as byte, (0x80 + v % 0x40) as byte]
    else if v < 0x1_0000 then
      [(0xE0 + v / 0x1000) as byte, (0x80 + (v / 0x40) % 0x40) as byte,
       (0x80 + v % 0x40) as byte]
    else
      [(0xF0 + v / 0x4_0000) as byte, (0x80 + (v / 0x1000) % 0x40) as byte,
       (0x80 + (v / 0x40) % 0x40) as byte, (0x80 + v % 0x40) as byte]
  }

  /** `str::len`: the length of the text in UTF-8 bytes, not in chars. */
  function ByteLen(s: string): (n: nat)
    ensures n >= |s|
  {
    if s == [] then 0 else CharLen(s[0]) + ByteLen(s[1..])
  }

  /** `str::as_bytes`: the UTF-8 encoding of the text. */
  function Encode(s: string): (r: seq<byte>)
    ensures |r| == ByteLen(s)
  {
    if s == [] then [] else EncodeChar(s[0]) + Encode(s[1..])
  }

  /** Text made only of ASCII chars takes one byte per char, and each byte is the char's code. */
  lemma {:induction false} AsciiEncode(s: string)
    requires forall i :: 0 <= i < |s| ==> IsAsciiChar(s[i])
    ensures ByteLen(s) == |s|
    ensures forall i :: 0 <= i < |s| ==> Encode(s)[i] as int == s[i] as int
  {
    if s != [] {
      AsciiEncode(s[1..]);
      assert Encode(s) == [s[0] as int as byte] + Encode(s[1..]);
    }
  }

  /**
   * `str::from_utf8(bytes).unwrap()` for ASCII bytes, where it cannot fail:
   * each byte becomes the char with that code, and encoding the text gives the
   * bytes back.
   */
  function AsciiText(bytes: seq<byte>): (s: string)
    requires IsAsciiBytes(bytes)
    ensures |s| == |bytes|
    ensures forall i :: 0 <= i < |s| ==> IsAsciiChar(s[i]) && s[i] as int == bytes[i] as int
    ensures Encode(s) == bytes
  {
    var s := seq(|bytes|, i requires 0 <= i < |bytes| => bytes[i] as int as char);
    AsciiEncode(s);
    s
  }

  /** Decoding ASCII text's own bytes gives the text back. */
  lemma AsciiTextOfEncode(s: string)
    requires forall i :: 0 <= i < |s| ==> IsAsciiChar(s[i])
    ensures IsAsciiBytes(Encode(s)) && AsciiText(Encode(s)) == s
  {
    AsciiEncode(s);
  }
}
