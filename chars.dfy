/**
 * Character classes of Rust's `char` restricted to ASCII, and the line
 * symbols the lexer imports from its `symbols` module. The lexer is only
 * modelled on ASCII source text, where byte offsets equal indices.
 */
module Chars {

  /** The `symbols` constants. */
  const NEWLINE: char := '\n'
  const CARRIAGE: char := '\r'
  const FORMFEED: char := '\U{000C}'
  const ESCAPE: char := '\\'

  predicate IsAscii(c: char) {
    c < '\U{0080}'
  }

  predicate AllAscii(s: seq<char>) {
    forall k :: 0 <= k < |s| ==> IsAscii(s[k])
  }

  /** A character that ends a physical line. */
  predicate IsTerminator(c: char) {
    c == NEWLINE || c == CARRIAGE || c == FORMFEED
  }

  /** `char::is_alphabetic` on ASCII. */
  predicate IsAlphabetic(c: char) {
    'a' <= c <= 'z' || 'A' <= c <= 'Z'
  }

  /** `char::is_digit(10)`. */
  predicate IsDigit(c: char) {
    '0' <= c <= '9'
  }

  /** `char::is_alphanumeric` on ASCII. */
  predicate IsAlphanumeric(c: char) {
    IsAlphabetic(c) || IsDigit(c)
  }

  /** `char::is_whitespace` on ASCII: tab, line feed, vertical tab, form feed, carriage return, space. */
  predicate IsWhitespace(c: char) {
    c == ' ' || '\t' <= c <= '\r'
  }

  /** `char::is_digit(16)`. */
  predicate IsHexDigit(c: char) {
    IsDigit(c) || 'a' <= c <= 'f' || 'A' <= c <= 'F'
  }

  /** `char::is_digit(8)`. */
  predicate IsOctDigit(c: char) {
    '0' <= c <= '7'
  }

  /** `char::is_digit(2)`. */
  predicate IsBinDigit(c: char) {
    c == '0' || c == '1'
  }

  function DigitValue(c: char): (v: nat)
    requires IsDigit(c)
    ensures v < 10
  {
    c as int - '0' as int
  }

  function HexDigitValue(c: char): (v: nat)
    requires IsHexDigit(c)
    ensures v < 16
    ensures IsDigit(c) ==> v == DigitValue(c)
  {
    if 'a' <= c <= 'f' then c as int - 'a' as int + 10
    else if 'A' <= c <= 'F' then c as int - 'A' as int + 10
    else c as int - '0' as int
  }

  predicate AllDigits(s: seq<char>) {
    forall k :: 0 <= k < |s| ==> IsDigit(s[k])
  }

  /** The usual decimal value of a run of digits. */
  function DecimalValue(s: seq<char>): nat
    requires AllDigits(s)
  {
    if s == [] then 0 else 10 * DecimalValue(s[..|s| - 1]) + DigitValue(s[|s| - 1])
  }

  /** ASCII lower-casing of one character and of a word. */
  function ToLower(c: char): char {
    if 'A' <= c <= 'Z' then (c as int + 32) as char else c
  }

  function Lower(w: seq<char>): (r: seq<char>)
    ensures |r| == |w|
    ensures forall k :: 0 <= k < |w| ==> r[k] == ToLower(w[k])
  {
    if w == [] then [] else [ToLower(w[0])] + Lower(w[1..])
  }
}
