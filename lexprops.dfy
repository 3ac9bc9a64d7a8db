/**
 * Properties of the reference definitions in scan.dfy: what each
 * sub-scanner of the lexer computes, stated independently of how it is
 * computed, and the invariants its results keep.
 */
module LexProps {
  import opened Options
  import opened Chars
  import opened Bits
  import opened Lexemes
  import opened Scan

  // ---- Runs ------------------------------------------------------------------

  /** Everything a run passes over belongs to its class. */
  lemma {:induction false} RunAllIn(s: seq<char>, i: nat, run: Run)
    requires i <= |s|
    ensures forall k :: i <= k < RunEnd(s, i, run) ==> InRun(run, s[k])
    decreases |s| - i
  {
    if i < |s| && InRun(run, s[i]) {
      RunAllIn(s, i + 1, run);
    }
  }

  /** A run is the longest stretch of its class: any stretch of the class from `i` that stops at a non-member is it. */
  lemma {:induction false} RunEndUnique(s: seq<char>, i: nat, j: nat, run: Run)
    requires i <= j <= |s|
    requires forall k :: i <= k < j ==> InRun(run, s[k])
    requires j < |s| ==> !InRun(run, s[j])
    ensures RunEnd(s, i, run) == j
    decreases j - i
  {
    if i < j {
      RunEndUnique(s, i + 1, j, run);
    }
  }

  // ---- Prefixed integers -------------------------------------------------------

  /** The value of the hexadecimal digits of `s[i..j]`, read most significant first; other characters are skipped. */
  ghost function HexValue(s: seq<char>, i: nat, j: nat): (v: nat)
    requires i <= j <= |s|
    decreases j
  {
    if j == i then 0
    else if IsHexDigit(s[j - 1]) then 16 * HexValue(s, i, j - 1) + HexDigitValue(s[j - 1])
    else HexValue(s, i, j - 1)
  }

  lemma {:induction false} HexValueGrows(s: seq<char>, i: nat, j: nat, j': nat)
    requires i <= j <= j' <= |s|
    ensures HexValue(s, i, j) <= HexValue(s, i, j')
    decreases j'
  {
    if j < j' {
      HexValueGrows(s, i, j, j' - 1);
    }
  }

  /**
   * While the value fits in 59 bits, the `lex_hex` accumulator over hex
   * digits and underscores is the positional value of the digits: each digit
   * shifts in four bits and an underscore leaves the accumulator as it was.
   */
  lemma {:induction false} HexFoldValue(s: seq<char>, i: nat, j: nat)
    requires i <= j <= |s|
    requires forall k :: i <= k < j ==> IsHexOrSep(s[k])
    requires HexValue(s, i, j) < 0x0800_0000_0000_0000
    ensures HexFold(s, i, j) == HexValue(s, i, j)
    decreases j
  {
    if j > i {
      HexValueGrows(s, i, j - 1, j);
      HexFoldValue(s, i, j - 1);
      Shl4Exact(HexFold(s, i, j - 1));
    }
  }

  /** `lex_hex` stops at the first character that is neither a hex digit nor `_`, without consuming it, and yields the digits' value. */
  lemma HexScan(s: seq<char>, i: nat)
    requires i <= |s|
    ensures var j := RunEnd(s, i, HexRun);
      && Hex(s, i).pos == j
      && (forall k :: i <= k < j ==> IsHexOrSep(s[k]))
      && (j < |s| ==> !IsHexOrSep(s[j]) && Hex(s, i).peek == 1)
      && (HexValue(s, i, j) < 0x0800_0000_0000_0000 ==> Hex(s, i).result == Ok(Integer(HexValue(s, i, j))))
  {
    var j := RunEnd(s, i, HexRun);
    RunAllIn(s, i, HexRun);
    if HexValue(s, i, j) < 0x0800_0000_0000_0000 {
      HexFoldValue(s, i, j);
    }
  }

  /** The value of the binary digits of `s[i..j]`; other characters are skipped. */
  ghost function BinValue(s: seq<char>, i: nat, j: nat): (v: nat)
    requires i <= j <= |s|
    decreases j
  {
    if j == i then 0
    else if IsBinDigit(s[j - 1]) then 2 * BinValue(s, i, j - 1) + (if s[j - 1] == '1' then 1 else 0)
    else BinValue(s, i, j - 1)
  }

  lemma {:induction false} BinValueGrows(s: seq<char>, i: nat, j: nat, j': nat)
    requires i <= j <= j' <= |s|
    ensures BinValue(s, i, j) <= BinValue(s, i, j')
    decreases j'
  {
    if j < j' {
      BinValueGrows(s, i, j, j' - 1);
    }
  }

  lemma {:induction false} BinFoldValue(s: seq<char>, i: nat, j: nat)
    requires i <= j <= |s|
    requires forall k :: i <= k < j ==> IsBinOrSep(s[k])
    requires BinValue(s, i, j) < 0x4000_0000_0000_0000
    ensures BinFold(s, i, j) == BinValue(s, i, j)
    decreases j
  {
    if j > i {
      BinValueGrows(s, i, j - 1, j);
      BinFoldValue(s, i, j - 1);
      Shl1Exact(BinFold(s, i, j - 1));
    }
  }

  /**
   * `lex_binary` consumes its digits and underscores and also the first
   * other character, for which it shifts once more: the value is then twice
   * the digits' value. At the end of input nothing is doubled.
   */
  lemma BinaryScan(s: seq<char>, i: nat)
    requires i <= |s|
    ensures var j := BinaryEnd(s, i);
      && Binary(s, i).pos == j
      && Binary(s, i).peek == 0
      && (if j == |s| && (forall k :: i <= k < |s| ==> IsBinOrSep(s[k])) then
            BinValue(s, i, j) < 0x4000_0000_0000_0000 ==> Binary(s, i).result == Ok(Integer(BinValue(s, i, j)))
          else
            i < j && !IsBinOrSep(s[j - 1]) && (forall k :: i <= k < j - 1 ==> IsBinOrSep(s[k])) &&
            (BinValue(s, i, j - 1) < 0x2000_0000_0000_0000 ==> Binary(s, i).result == Ok(Integer(2 * BinValue(s, i, j - 1)))))
  {
    var j := BinaryEnd(s, i);
    BinaryEndShape(s, i);
    if j == |s| && (forall k :: i <= k < |s| ==> IsBinOrSep(s[k])) {
      if BinValue(s, i, j) < 0x4000_0000_0000_0000 {
        BinFoldValue(s, i, j);
      }
    } else if BinValue(s, i, j - 1) < 0x2000_0000_0000_0000 {
      BinFoldValue(s, i, j - 1);
      Shl1Exact(BinFold(s, i, j - 1));
      assert BinValue(s, i, j) == BinValue(s, i, j - 1);
    }
  }

  /** Where `lex_binary` stops: at the end of a run of binary characters, or just past the first other character. */
  lemma {:induction false} BinaryEndShape(s: seq<char>, i: nat)
    requires i <= |s|
    ensures var j := BinaryEnd(s, i);
      (j == |s| && forall k :: i <= k < |s| ==> IsBinOrSep(s[k])) ||
      (i < j && !IsBinOrSep(s[j - 1]) && forall k :: i <= k < j - 1 ==> IsBinOrSep(s[k]))
    decreases |s| - i
  {
    if i < |s| && IsBinOrSep(s[i]) {
      BinaryEndShape(s, i + 1);
    }
  }

  /** The guard of the `lex_octal` loop, `!is_digit(8) || != '_'`, is true of every character, so the loop always breaks at once. */
  lemma OctalGuardAlwaysBreaks(c: char)
    ensures !IsOctDigit(c) || c != '_'
  {
  }

  // ---- Decimal numbers ---------------------------------------------------------

  /** Dropping underscores keeps every other character of `s[i..j]` and adds none. */
  lemma {:induction false} DropUnderscoresMembers(s: seq<char>, i: nat, j: nat)
    requires i <= j <= |s|
    ensures forall c :: c in DropUnderscores(s, i, j) <==> c != '_' && exists k :: i <= k < j && s[k] == c
    decreases j
  {
    if j > i {
      DropUnderscoresMembers(s, i, j - 1);
      forall c | c != '_' && (exists k :: i <= k < j && s[k] == c)
        ensures c in DropUnderscores(s, i, j)
      {
        var k :| i <= k < j && s[k] == c;
        if k < j - 1 {
          assert c in DropUnderscores(s, i, j - 1);
        }
      }
    }
  }

  /**
   * The literal `lex_integer` builds after a leading digit `first`: the
   * longest run of digits, `_`, `.`, `e`, `+` and `-`, underscores dropped.
   * Without `.` and `e`, a literal that is not all digits holds a sign.
   */
  lemma IntegerLiteralChars(s: seq<char>, first: char, i: nat)
    requires i <= |s| && IsDigit(first)
    ensures var j := RunEnd(s, i, NumberRun);
      var literal := [first] + DropUnderscores(s, i, j);
      && '_' !in literal
      && (forall k :: i <= k < j ==> IsNumberChar(s[k]))
      && (!('.' in literal || 'e' in literal) && !AllDigits(literal) ==> '+' in literal || '-' in literal)
  {
    var j := RunEnd(s, i, NumberRun);
    var literal := [first] + DropUnderscores(s, i, j);
    RunAllIn(s, i, NumberRun);
    DropUnderscoresMembers(s, i, j);
    if !AllDigits(literal) && !('.' in literal || 'e' in literal) {
      var k :| 0 <= k < |literal| && !IsDigit(literal[k]);
      assert k > 0;
      assert literal[k] in DropUnderscores(s, i, j);
    }
  }

  /**
   * `lex_integer`: a literal with `.` or `e` goes to the float parser; any
   * other literal is an `Integer` of its decimal value when it is all digits
   * within `i64`, and otherwise (a sign inside it, or overflow) the
   * `.expect` panics.
   */
  lemma IntegerCases(s: seq<char>, isFloat: string -> bool, first: char, start: nat, i: nat)
    requires i <= |s| && IsDigit(first)
    ensures var j := RunEnd(s, i, NumberRun);
      var literal := [first] + DropUnderscores(s, i, j);
      var r := IntegerScan(s, isFloat, first, start, i);
      && r.pos == j
      && ('.' in literal || 'e' in literal ==> r.result == FloatResult(isFloat, literal, start))
      && (!('.' in literal || 'e' in literal) ==>
            (r.result.Ok? <==> AllDigits(literal) && DecimalValue(literal) <= I64_MAX) &&
            (r.result.Ok? ==> r.result == Ok(Integer(DecimalValue(literal)))) &&
            (!r.result.Ok? ==> r.result == Abort(IntegerLiteral)))
  {
  }

  /** `lex_leading_zero`: a run of zeros and underscores is `Integer(0)`; any other run must parse as a float, underscores dropped. */
  lemma LeadingZeroCases(s: seq<char>, isFloat: string -> bool, start: nat, i: nat)
    requires i <= |s|
    ensures var j := RunEnd(s, i, NumberRun);
      var r := LeadingZero(s, isFloat, start, i);
      && r.pos == j
      && r.result == if forall k :: i <= k < j ==> s[k] == '0' || s[k] == '_' then Ok(Integer(0))
                     else FloatResult(isFloat, DropUnderscores(s, i, j), start)
  {
    var j := RunEnd(s, i, NumberRun);
    var literal := DropUnderscores(s, i, j);
    DropUnderscoresMembers(s, i, j);
    if forall k :: i <= k < j ==> s[k] == '0' || s[k] == '_' {
      forall k | 0 <= k < |literal|
        ensures literal[k] == '0'
      {
        assert literal[k] in literal;
      }
    } else {
      var k :| i <= k < j && s[k] != '0' && s[k] != '_';
      assert s[k] in literal;
    }
  }

  /** A leading dot is the `Access` operator exactly when no digit, `e`, `+` or `-` follows it. */
  lemma LeadingDotAccess(s: seq<char>, isFloat: string -> bool, start: nat, i: nat)
    requires i <= |s|
    ensures LeadingDot(s, isFloat, start, i).result == Ok(Lexeme.Operator(Access)) <==> i == |s| || !IsDotChar(s[i])
    ensures !(i == |s| || !IsDotChar(s[i])) ==>
      LeadingDot(s, isFloat, start, i).result == FloatResult(isFloat, ['.'] + s[i..RunEnd(s, i, DotRun)], start)
  {
  }

  /** A `0` followed by whitespace, an operator character or the end is `Integer(0)`, and nothing more is consumed. */
  lemma ZeroAlone(s: seq<char>, isFloat: string -> bool, start: nat, i: nat)
    requires i <= |s|
    requires i == |s| || IsWhitespace(s[i]) || IsOperatorTerm(s[i])
    ensures Number(s, isFloat, '0', start, i) == Scanned(Ok(Integer(0)), i, StopPeek(s, i))
  {
  }

  /** `0o…` is always `Integer(0)` and stops right after the `o`: the octal digits are left for the line loop. */
  lemma OctalIsZero(s: seq<char>, isFloat: string -> bool, start: nat, i: nat)
    requires i < |s| && (s[i] == 'o' || s[i] == 'O')
    ensures Number(s, isFloat, '0', start, i).result == Ok(Integer(0))
    ensures Number(s, isFloat, '0', start, i).pos == i + 1
  {
  }

  /**
   * After a `0`, any character other than whitespace, an operator character
   * or a base letter is consumed and dropped before `lex_leading_zero`; so
   * `09` is `Integer(0)`.
   */
  lemma ZeroDropsNext(s: seq<char>, isFloat: string -> bool, start: nat, i: nat)
    requires i < |s| && !IsWhitespace(s[i]) && !IsOperatorTerm(s[i]) && s[i] !in "bBoOxX"
    ensures Number(s, isFloat, '0', start, i) == LeadingZero(s, isFloat, start, i + 1)
    ensures (forall k :: i < k < RunEnd(s, i + 1, NumberRun) ==> s[k] == '0' || s[k] == '_') ==>
      Number(s, isFloat, '0', start, i).result == Ok(Integer(0))
  {
    LeadingZeroCases(s, isFloat, start, i + 1);
  }

  // ---- Operators -----------------------------------------------------------------

  /** The word `lex_operator` looks up is its character and the operator characters directly after it, at most three in all. */
  lemma OperatorWordShape(s: seq<char>, start: nat)
    requires start < |s| && IsOperatorTerm(s[start])
    ensures var n := OperatorLength(s, start);
      && (forall k :: start <= k < start + n ==> IsOperatorTerm(s[k]))
      && (n < 3 && start + n < |s| ==> !IsOperatorTerm(s[start + n]))
  {
  }

  /**
   * `lex_operator` consumes only the operator character; an unknown word is
   * `InvalidOperator(start, word)`, a known one its operator, except that a
   * lone `+` or `-` may become unary. Nothing else is ever unary.
   */
  lemma OperatorOutcome(s: seq<char>, start: nat)
    requires start < |s|
    ensures var word := s[start..start + OperatorLength(s, start)];
      var r := OperatorScan(s, start);
      && r.pos == start + 1
      && (r.result.Err? <==> IsOperator(word).None?)
      && (r.result.Err? ==> r.result.error == InvalidOperator(start, word))
      && !r.result.Abort?
      && (r.result.Ok? ==> r.result.value.Operator?)
      && (r.result.Ok? && IsUnary(r.result.value) ==> word == "+" || word == "-")
      && (r.result.Ok? && !IsUnary(r.result.value) ==> IsOperator(word) == Some(r.result.value.operator))
  {
    var word := s[start..start + OperatorLength(s, start)];
    if IsOperator(word) == Some(Add) {
      OperatorSpellingInverse(word, Add);
    } else if IsOperator(word) == Some(Sub) {
      OperatorSpellingInverse(word, Sub);
    }
    NoUnarySpelling(word);
  }

  /**
   * A lone `+` or `-` is unary exactly when the character two places after it
   * is alphanumeric: the check peeks one past the character the operator loop
   * already peeked at.
   */
  lemma UnaryTest(s: seq<char>, start: nat)
    requires start < |s| && (s[start] == '+' || s[start] == '-')
    requires start + 1 == |s| || !IsOperatorTerm(s[start + 1])
    ensures OperatorScan(s, start).result == Ok(Lexeme.Operator(
      if start + 2 < |s| && IsAlphanumeric(s[start + 2]) then (if s[start] == '+' then UnaryAdd else UnarySub)
      else (if s[start] == '+' then Add else Sub)))
  {
    assert s[start..start + OperatorLength(s, start)] == [s[start]];
  }

  // ---- Strings -------------------------------------------------------------------

  /** A single-quoted string without escapes (or a raw one) is the text up to the next quote, which is consumed. */
  lemma {:induction false} PlainString(s: seq<char>, flags: Flags, start: nat, quote: char, i: nat, q: nat, acc: string)
    requires i <= q < |s| && s[q] == quote
    requires forall k :: i <= k < q ==> s[k] != quote && (Has(flags, Raw) || s[k] != ESCAPE)
    ensures StrFrom(s, flags, start, quote, false, i, acc) == Scanned(Ok(acc + s[i..q]), q + 1, 0)
    decreases q - i
  {
    if i < q {
      assert s[i] != quote && (Has(flags, Raw) || s[i] != ESCAPE);
      PlainString(s, flags, start, quote, i + 1, q, acc + [s[i]]);
      assert acc + [s[i]] + s[i + 1..q] == acc + s[i..q];
    } else {
      assert acc + s[i..q] == acc;
    }
  }

  /** A triple-quoted string without escapes is the text up to three quotes in a row; lone quotes inside are dropped. */
  lemma {:induction false} TripleString(s: seq<char>, flags: Flags, start: nat, quote: char, i: nat, q: nat, acc: string)
    requires i <= q && q + 2 < |s| && s[q] == quote && s[q + 1] == quote && s[q + 2] == quote
    requires forall k :: i <= k < q ==> s[k] != quote && (Has(flags, Raw) || s[k] != ESCAPE)
    ensures StrFrom(s, flags, start, quote, true, i, acc) == Scanned(Ok(acc + s[i..q]), q + 3, 0)
    decreases q - i
  {
    if i < q {
      assert s[i] != quote && (Has(flags, Raw) || s[i] != ESCAPE);
      TripleString(s, flags, start, quote, i + 1, q, acc + [s[i]]);
      assert acc + [s[i]] + s[i + 1..q] == acc + s[i..q];
    } else {
      assert acc + s[i..q] == acc;
    }
  }

  /** Inside a triple-quoted string a quote that does not start three in a row adds nothing. */
  lemma TripleLoneQuote(s: seq<char>, flags: Flags, start: nat, quote: char, i: nat, acc: string)
    requires i < |s| && s[i] == quote && !(i + 2 < |s| && s[i + 1] == quote && s[i + 2] == quote)
    ensures StrFrom(s, flags, start, quote, true, i, acc) == StrFrom(s, flags, start, quote, true, i + 1, acc)
  {
  }

  /** A string whose closing quote never comes (and that has no escapes) ends in `Eof` at the end of input. */
  lemma {:induction false} UnterminatedString(s: seq<char>, flags: Flags, start: nat, quote: char, triple: bool, i: nat, acc: string)
    requires i <= |s|
    requires forall k :: i <= k < |s| ==> s[k] != quote && (Has(flags, Raw) || s[k] != ESCAPE)
    ensures StrFrom(s, flags, start, quote, triple, i, acc) == Scanned(Err(Eof), |s|, 0)
    decreases |s| - i
  {
    if i < |s| {
      UnterminatedString(s, flags, start, quote, triple, i + 1, acc + [s[i]]);
    }
  }

  /** Outside a raw string, a backslash and a character of the escape table add that character's value and nothing else. */
  lemma SimpleEscapeInString(s: seq<char>, flags: Flags, start: nat, quote: char, triple: bool, i: nat, acc: string)
    requires i + 1 < |s| && s[i] == ESCAPE && quote != ESCAPE && !Has(flags, Raw)
    requires SimpleEscape(s[i + 1]).Some?
    ensures StrFrom(s, flags, start, quote, triple, i, acc) ==
      StrFrom(s, flags, start, quote, triple, i + 2, acc + [SimpleEscape(s[i + 1]).value])
  {
  }

  /** Outside a raw string, a backslash before a line feed is elided together with it. */
  lemma LineContinuationInString(s: seq<char>, flags: Flags, start: nat, quote: char, triple: bool, i: nat, acc: string)
    requires i + 1 < |s| && s[i] == ESCAPE && quote != ESCAPE && !Has(flags, Raw) && s[i + 1] == NEWLINE
    ensures StrFrom(s, flags, start, quote, triple, i, acc) == StrFrom(s, flags, start, quote, triple, i + 2, acc)
  {
  }

  /** In a raw string a backslash is copied like any other character. */
  lemma RawBackslash(s: seq<char>, flags: Flags, start: nat, quote: char, triple: bool, i: nat, acc: string)
    requires i < |s| && s[i] == ESCAPE && quote != ESCAPE && Has(flags, Raw)
    ensures StrFrom(s, flags, start, quote, triple, i, acc) == StrFrom(s, flags, start, quote, triple, i + 1, acc + [ESCAPE])
  {
  }

  /** The table escapes whose values are not the usual ones. */
  lemma OddEscapes()
    ensures SimpleEscape('f') == Some('\U{21A1}') && SimpleEscape('v') == Some('\U{0011}')
    ensures SimpleEscape('a') == Some('\U{0007}') && SimpleEscape('b') == Some('\U{0008}')
    ensures SimpleEscape('0') == Option.None && SimpleEscape('x') == Option.None
  {
  }

  /**
   * `\x`, `\u` and `\U`: the escape is the `lex_hex` value of the digits
   * after the letter. It is refused above 255, above 0xFFFF, or above
   * `u32::MAX`, and when its low 32 bits are not a scalar value; every
   * refusal is the letter's own error at the literal's offset. A negative
   * accumulator (possible from the sixteenth digit on) passes the bound check, and then only its
   * low 32 bits are used.
   */
  lemma HexEscapeBounds(s: seq<char>, x: char, start: nat, i: nat)
    requires i <= |s|
    ensures var r := HexEscape(s, x, start, i);
      var number := Hex(s, i).result.value.value;
      && (r.result.Ok? ==> IsScalar(r.result.value.value as int) && r.result.value.value as int == AsU32(number))
      && (x == 'x' ==> (r.result.Ok? && number >= 0 ==> r.result.value.value as int == number <= 255) &&
                       (!r.result.Ok? ==> r.result == Err(InvalidHex(start))))
      && (x == 'u' ==> (r.result.Ok? && number >= 0 ==> r.result.value.value as int == number <= 0xFFFF) &&
                       (!r.result.Ok? ==> r.result == Err(InvalidUnicode16(start))))
      && (x != 'x' && x != 'u' ==> !r.result.Ok? ==> r.result == Err(InvalidUnicode32(start)))
    ensures var number := Hex(s, i).result.value.value;
      && (x == 'x' && number > 255 ==> HexEscape(s, x, start, i).result == Err(InvalidHex(start)))
      && (x == 'u' && number > 0xFFFF ==> HexEscape(s, x, start, i).result == Err(InvalidUnicode16(start)))
      && (x == 'U' && number > U32_MAX ==> HexEscape(s, x, start, i).result == Err(InvalidUnicode32(start)))
    ensures var v := HexValue(s, i, RunEnd(s, i, HexRun));
      && (x == 'x' && v <= 255 ==> HexEscape(s, x, start, i).result == Ok(Some(v as char)))
      && (x == 'u' && v <= 0xFFFF && IsScalar(v) ==> HexEscape(s, x, start, i).result == Ok(Some(v as char)))
      && (x == 'U' && v <= U32_MAX && IsScalar(v) ==> HexEscape(s, x, start, i).result == Ok(Some(v as char)))
    ensures var number := Hex(s, i).result.value.value;
      0 <= number <= HexEscapeLimit(x, start).0 && IsScalar(number) ==>
        HexEscape(s, x, start, i).result == Ok(Some(number as char))
  {
    var j := RunEnd(s, i, HexRun);
    HexScan(s, i);
    var v := HexValue(s, i, j);
    if v <= U32_MAX {
      assert Hex(s, i).result.value.value == v;
      assert AsU32(v) == v;
    }
  }

  /**
   * The wrap-around in general: whenever the `i64` accumulator of `\x`, `\u`
   * or `\U` is negative and its low 32 bits are a scalar value, the escape
   * passes the bound check and decodes to the character of those bits.
   */
  lemma HexEscapeNegative(s: seq<char>, x: char, start: nat, i: nat)
    requires i <= |s|
    ensures var number := Hex(s, i).result.value.value;
      number < 0 && IsScalar(AsU32(number)) ==>
        HexEscape(s, x, start, i).result == Ok(Some(AsU32(number) as char))
  {
  }

  /**
   * Under the bytes prefix `\u` and `\U` are not recognised: the escape falls
   * through to the three-character fallback, which never accepts a letter.
   */
  lemma UnicodeUnderBytes(s: seq<char>, flags: Flags, start: nat, e: nat)
    requires e < |s| && (s[e] == 'u' || s[e] == 'U') && Has(flags, Prefix.Bytes)
    ensures Escape(s, flags, start, e) == OctalEscape(s, e)
    ensures !Escape(s, flags, start, e).result.Ok?
  {
    if e + 2 < |s| {
      assert !AllDigits(s[e..e + 3]) by {
        assert s[e..e + 3][0] == s[e];
      }
    }
  }

  /**
   * The wrap can also land on a small non-negative value: `\x10000000000000041`
   * is 2^64 + 65, its `i64` accumulator wraps to 65, passes the check of
   * `\x`, and decodes to `A`.
   */
  lemma HexEscapePositiveWrap(s: string)
    requires |s| == 17 && s[0] == '1' && s[15] == '4' && s[16] == '1'
    requires forall k :: 1 <= k < 15 ==> s[k] == '0'
    ensures HexEscape(s, 'x', 0, 0).result == Ok(Some('A'))
  {
    assert RunEnd(s, 0, HexRun) == 17 by {
      assert forall k :: 0 <= k < 17 ==> IsHexOrSep(s[k]);
      RunEndUnique(s, 0, 17, HexRun);
    }
    Shl4Exact(0);
    assert HexFold(s, 0, 1) == 1;
    Shl4Exact(1);
    assert HexFold(s, 0, 2) == 16;
    Shl4Exact(16);
    assert HexFold(s, 0, 3) == 256;
    Shl4Exact(256);
    assert HexFold(s, 0, 4) == 4096;
    Shl4Exact(4096);
    assert HexFold(s, 0, 5) == 65536;
    Shl4Exact(65536);
    assert HexFold(s, 0, 6) == 1048576;
    Shl4Exact(1048576);
    assert HexFold(s, 0, 7) == 16777216;
    Shl4Exact(16777216);
    assert HexFold(s, 0, 8) == 268435456;
    Shl4Exact(268435456);
    assert HexFold(s, 0, 9) == 4294967296;
    Shl4Exact(4294967296);
    assert HexFold(s, 0, 10) == 68719476736;
    Shl4Exact(68719476736);
    assert HexFold(s, 0, 11) == 1099511627776;
    Shl4Exact(1099511627776);
    assert HexFold(s, 0, 12) == 17592186044416;
    Shl4Exact(17592186044416);
    assert HexFold(s, 0, 13) == 281474976710656;
    Shl4Exact(281474976710656);
    assert HexFold(s, 0, 14) == 4503599627370496;
    Shl4Exact(4503599627370496);
    assert HexFold(s, 0, 15) == 72057594037927936;
    Shl4Exact(72057594037927936);
    assert HexFold(s, 0, 16) == 1152921504606846980;
    assert Shl4(1152921504606846980) == 64;
    assert HexFold(s, 0, 17) == 65;
  }

  /**
   * The bound check of `\x` is made on the `i64` accumulator, which can wrap
   * from the sixteenth digit on: `\xFFFFFFFF00000041` makes it negative, passes
   * the check, and decodes to `A` from its low 32 bits.
   */
  lemma HexEscapeWraps(s: string)
    requires |s| == 16 && s[14] == '4' && s[15] == '1'
    requires forall k :: 0 <= k < 8 ==> s[k] == 'F'
    requires forall k :: 8 <= k < 14 ==> s[k] == '0'
    ensures HexEscape(s, 'x', 0, 0).result == Ok(Some('A'))
  {
    assert RunEnd(s, 0, HexRun) == 16 by {
      assert forall k :: 0 <= k < 16 ==> IsHexOrSep(s[k]);
      RunEndUnique(s, 0, 16, HexRun);
    }
    Shl4Exact(0);
    assert HexFold(s, 0, 1) == 15;
    Shl4Exact(15);
    assert HexFold(s, 0, 2) == 255;
    Shl4Exact(255);
    assert HexFold(s, 0, 3) == 4095;
    Shl4Exact(4095);
    assert HexFold(s, 0, 4) == 65535;
    Shl4Exact(65535);
    assert HexFold(s, 0, 5) == 1048575;
    Shl4Exact(1048575);
    assert HexFold(s, 0, 6) == 16777215;
    Shl4Exact(16777215);
    assert HexFold(s, 0, 7) == 268435455;
    Shl4Exact(268435455);
    assert HexFold(s, 0, 8) == 4294967295;
    Shl4Exact(4294967295);
    assert HexFold(s, 0, 9) == 68719476720;
    Shl4Exact(68719476720);
    assert HexFold(s, 0, 10) == 1099511627520;
    Shl4Exact(1099511627520);
    assert HexFold(s, 0, 11) == 17592186040320;
    Shl4Exact(17592186040320);
    assert HexFold(s, 0, 12) == 281474976645120;
    Shl4Exact(281474976645120);
    assert HexFold(s, 0, 13) == 4503599626321920;
    Shl4Exact(4503599626321920);
    assert HexFold(s, 0, 14) == 72057594021150720;
    Shl4Exact(72057594021150720);
    assert HexFold(s, 0, 15) == 1152921504338411524;
    assert Shl4(1152921504338411524) == -4294967232;
    assert HexFold(s, 0, 16) == -4294967231;
  }

  /** The escape fallback weights the digits of a three-digit decimal number by 512, 64 and 8. */
  lemma OctalWeights(a: nat, b: nat, c: nat)
    requires a < 10 && b < 10 && c < 10
    ensures OctalConvert(100 * a + 10 * b + c, 0) == 512 * a + 64 * b + 8 * c
  {
    var n := 100 * a + 10 * b + c;
    assert n % 10 == c && n / 10 == 10 * a + b;
    assert (10 * a + b) % 10 == b && (10 * a + b) / 10 == a;
    assert a % 10 == a && a / 10 == 0;
    assert Pow8(1) == 8 && Pow8(2) == 64 && Pow8(3) == 512;
    assert OctalConvert(a, 2) == 512 * a;
    assert OctalConvert(10 * a + b, 1) == 64 * b + 512 * a;
  }

  /** Three decimal digits after a backslash always decode, to the character numbered by their weighted sum. */
  lemma OctalEscapeDigits(s: seq<char>, e: nat)
    requires e + 2 < |s| && IsDigit(s[e]) && IsDigit(s[e + 1]) && IsDigit(s[e + 2])
    ensures OctalEscape(s, e) ==
      Scanned(Ok(Some((512 * DigitValue(s[e]) + 64 * DigitValue(s[e + 1]) + 8 * DigitValue(s[e + 2])) as char)), e + 3, 0)
  {
    var t := s[e..e + 3];
    assert t[..2] == [s[e], s[e + 1]] && t[..2][..1] == [s[e]] && [s[e]][..0] == [];
    assert t[2] == s[e + 2] && t[..2][1] == s[e + 1];
    assert DecimalValue([s[e]]) == DigitValue(s[e]);
    assert DecimalValue(t[..2]) == 10 * DigitValue(s[e]) + DigitValue(s[e + 1]);
    assert DecimalValue(t) == 100 * DigitValue(s[e]) + 10 * DigitValue(s[e + 1]) + DigitValue(s[e + 2]);
    OctalWeights(DigitValue(s[e]), DigitValue(s[e + 1]), DigitValue(s[e + 2]));
  }

  /** A `Bytes` literal holds the UTF-8 encoding of its decoded text, which decodes back to it. */
  lemma BytesRoundTrip(start: nat, flags: Flags, body: Scanned<string>)
    requires Has(flags, Prefix.Bytes) && body.result.Ok?
    ensures var t := StrToken(start, flags, body);
      && t.result.Ok? && t.result.value.Bytes? && t.result.value.offset == start
      && Decode(t.result.value.bytes) == CodePoints(body.result.value)
  {
    Utf8RoundTrip(body.result.value);
  }

  /** Without `Bytes` the literal is a `Str` of the decoded text; a failed body fails the literal the same way. */
  lemma StrTokenCases(start: nat, flags: Flags, body: Scanned<string>)
    ensures var t := StrToken(start, flags, body);
      && t.pos == body.pos && t.peek == body.peek
      && (body.result.Ok? && !Has(flags, Prefix.Bytes) ==> t.result == Ok(Str(start, body.result.value)))
      && (body.result.Err? ==> t.result == Err(body.result.error))
      && (body.result.Abort? ==> t.result == Abort(body.result.panic))
  {
  }

  // ---- Words ---------------------------------------------------------------------

  /**
   * `lex_word` from the word's first character at `start`: the word runs to
   * the first character that is neither alphanumeric nor `_`; a word at the
   * very end of the input is `Eof`; a quote after it makes it a string
   * prefix; otherwise it is a keyword or an identifier.
   */
  lemma WordCases(s: seq<char>, start: nat)
    requires start < |s|
    ensures var j := RunEnd(s, start + 1, WordRun);
      var word := s[start..j];
      var r := Word(s, start, start + 1);
      && (forall k :: start < k < j ==> IsWordChar(s[k]))
      && (j == |s| ==> r == Scanned(Err(Eof), j, 0))
      && (j < |s| && s[j] != '"' && s[j] != '\'' ==>
            r.pos == j && r.peek == 1 &&
            r.result == Ok(if IsKeyword(word).Some? then Lexeme.Keyword(start, IsKeyword(word).value) else Identifier(start, word)))
      && (j < |s| && (s[j] == '"' || s[j] == '\'') ==>
            (IsPrefix(word).None? ==> r == Scanned(Err(InvalidPrefix(word)), j + 1, 0)) &&
            (IsPrefix(word).Some? ==> r == StrScan(s, start, s[j], IsPrefix(word).value, j + 1)))
  {
    RunAllIn(s, start + 1, WordRun);
  }

  // ---- Lines -----------------------------------------------------------------------

  predicate IsBlank(c: char) {
    c == ' ' || c == '\t'
  }

  /** Each space or tab before the first other character adds one column. */
  lemma {:induction false} IndentCounts(s: seq<char>, i: nat, j: nat, indent: U8)
    requires i <= j <= |s| && indent + (j - i) <= 255
    requires forall k :: i <= k < j ==> IsBlank(s[k])
    ensures IndentFrom(s, i, indent) == IndentFrom(s, j, indent + (j - i))
    decreases j - i
  {
    if i < j {
      assert IsBlank(s[i]);
      IndentCounts(s, i + 1, j, indent + 1);
    }
  }

  /** The 256th leading blank overflows the `u8` indentation counter. */
  lemma IndentOverflows(s: seq<char>, isFloat: string -> bool, stack: seq<U8>, i: nat)
    requires i + 256 <= |s|
    requires forall k :: i <= k < i + 256 ==> IsBlank(s[k])
    ensures Line(s, isFloat, stack, i).result == Abort(IndentOverflow)
  {
    IndentCounts(s, i, i + 255, 0);
  }

  /** A line of blanks only is consumed through its terminator and leaves the output and the stack as they were. */
  lemma BlankLine(s: seq<char>, isFloat: string -> bool, i: nat, j: nat, output: seq<Lexeme>, stack: seq<U8>)
    requires i <= j < |s| && j - i <= 255 && IsTerminator(s[j])
    requires forall k :: i <= k < j ==> IsBlank(s[k])
    ensures Line(s, isFloat, stack, i) == Scanned(Err(LexerError.Continue), j + 1, 0)
    ensures LexFrom(s, isFloat, i, output, stack) == LexFrom(s, isFloat, j + 1, output, stack)
  {
    IndentCounts(s, i, j, 0);
  }

  /** A line that reaches its terminator adds its tokens and one `Newline` to the output and its indentation to the stack. */
  lemma LineFraming(s: seq<char>, isFloat: string -> bool, i: nat, output: seq<Lexeme>, stack: seq<U8>)
    requires i <= |s|
    ensures var l := Line(s, isFloat, stack, i);
      l.result.Ok? ==>
        (LexFrom(s, isFloat, i, output, stack) ==
         LexFrom(s, isFloat, l.pos, output + l.result.value.1 + [Newline], stack + [l.result.value.0]))
    ensures Line(s, isFloat, stack, i).result == Err(Eof) ==>
      LexFrom(s, isFloat, i, output, stack).finish == Done &&
      LexFrom(s, isFloat, i, output, stack).output == output &&
      LexFrom(s, isFloat, i, output, stack).stack == stack
  {
  }

  /** Token `k` of the indentation tokens `t`, set against stack entry `k` from the top. */
  predicate EntryFits(t: seq<Lexeme>, stack: seq<U8>, indent: U8, k: nat)
    requires k < |t| <= |stack|
  {
    (t[k] == Dedent && stack[|stack| - 1 - k] > indent) ||
    (k == |t| - 1 && t[k] == Indent && stack[|stack| - 1 - k] < indent)
  }

  /**
   * The indentation tokens: one `Dedent` for each entry above `indent`,
   * from the top of the stack down, then either nothing (an equal entry or
   * the bottom) or one `Indent` (a smaller entry).
   */
  lemma IndentTokensShape(stack: seq<U8>, indent: U8)
    ensures |IndentTokens(stack, indent)| <= |stack|
    ensures forall k :: 0 <= k < |IndentTokens(stack, indent)| ==> EntryFits(IndentTokens(stack, indent), stack, indent, k)
    ensures var t := IndentTokens(stack, indent);
      (t == [] || t[|t| - 1] == Dedent) && |t| < |stack| ==> stack[|stack| - 1 - |t|] == indent
  {
    IndentTokensEntries(stack, indent);
    IndentTokensStop(stack, indent);
  }

  /** The first half of `IndentTokensShape`, by induction on the stack. */
  lemma {:induction false} IndentTokensEntries(stack: seq<U8>, indent: U8)
    ensures |IndentTokens(stack, indent)| <= |stack|
    ensures forall k :: 0 <= k < |IndentTokens(stack, indent)| ==> EntryFits(IndentTokens(stack, indent), stack, indent, k)
    decreases |stack|
  {
    if stack != [] && indent < stack[|stack| - 1] {
      var rest := stack[..|stack| - 1];
      IndentTokensEntries(rest, indent);
      var t := IndentTokens(stack, indent);
      var u := IndentTokens(rest, indent);
      assert t == [Dedent] + u;
      forall k | 0 <= k < |t|
        ensures EntryFits(t, stack, indent, k)
      {
        if k > 0 {
          assert EntryFits(u, rest, indent, k - 1);
          assert t[k] == u[k - 1];
          assert stack[|stack| - 1 - k] == rest[|rest| - 1 - (k - 1)];
        }
      }
    }
  }

  /** The second half of `IndentTokensShape`: the walk down the stack stops at an equal entry or at the bottom. */
  lemma {:induction false} IndentTokensStop(stack: seq<U8>, indent: U8)
    ensures var t := IndentTokens(stack, indent);
      (t == [] || t[|t| - 1] == Dedent) && |t| < |stack| ==> stack[|stack| - 1 - |t|] == indent
    decreases |stack|
  {
    if stack != [] && indent < stack[|stack| - 1] {
      var rest := stack[..|stack| - 1];
      IndentTokensStop(rest, indent);
      var t := IndentTokens(stack, indent);
      var u := IndentTokens(rest, indent);
      assert t == [Dedent] + u;
      if |t| < |stack| && t[|t| - 1] == Dedent {
        assert u == [] || u[|u| - 1] == t[|t| - 1];
        assert stack[|stack| - 1 - |t|] == rest[|rest| - 1 - |u|];
      }
    }
  }

  /** The line-local bracket stack only ever holds opening brackets. */
  lemma DelimitOpenings(brackets: seq<Delimiter>, d: Delimiter)
    requires forall k :: 0 <= k < |brackets| ==> IsOpening(brackets[k])
    ensures forall k :: 0 <= k < |Delimit(brackets, d)| ==> IsOpening(Delimit(brackets, d)[k])
    ensures IsOpening(d) ==> Delimit(brackets, d) == brackets + [d]
    ensures IsClosing(d) && brackets != [] && IsMatching(brackets[|brackets| - 1], d) ==> Delimit(brackets, d) == brackets[..|brackets| - 1]
    ensures IsClosing(d) && !(brackets != [] && IsMatching(brackets[|brackets| - 1], d)) ==> Delimit(brackets, d) == brackets
  {
  }

  /**
   * The arms of `lex_line`'s loop for a character that starts no token: a
   * bracket is a `Delimiter` token and updates the bracket stack; `#` skips
   * to the next terminator; a backslash must be followed by a terminator,
   * which it swallows; a terminator ends the line only outside brackets;
   * any other character is skipped.
   */
  lemma LineDispatch(s: seq<char>, isFloat: string -> bool, i: nat, line: seq<Lexeme>, brackets: seq<Delimiter>)
    requires i < |s|
    requires !IsAlphanumeric(s[i]) && s[i] != '_' && s[i] != '"' && s[i] != '\'' && !IsOperatorTerm(s[i])
    ensures var r := LineFrom(s, isFloat, i, line, brackets);
      var ch := s[i];
      && (IsDelimiter(ch).Some? ==>
            r == LineFrom(s, isFloat, i + 1, line + [Lexeme.Delimiter(i, IsDelimiter(ch).value)], Delimit(brackets, IsDelimiter(ch).value)))
      && (IsTerminator(ch) && brackets == [] ==> r == Scanned(Ok(line), i + 1, 0))
      && (IsTerminator(ch) && brackets != [] ==> r == LineFrom(s, isFloat, i + 1, line, brackets))
      && (IsDelimiter(ch).None? && ch != '#' && ch != ESCAPE && !IsTerminator(ch) ==> r == LineFrom(s, isFloat, i + 1, line, brackets))
  {
  }

  /** The comment arm of `lex_line`'s loop: `#` skips to the next terminator, which the loop then reads. */
  lemma LineComment(s: seq<char>, isFloat: string -> bool, i: nat, line: seq<Lexeme>, brackets: seq<Delimiter>)
    requires i < |s| && s[i] == '#'
    ensures var r := LineFrom(s, isFloat, i, line, brackets);
      var j := RunEnd(s, i + 1, CommentRun);
      && (forall k :: i < k < j ==> !IsTerminator(s[k]))
      && (j < |s| ==> r == LineFrom(s, isFloat, j, line, brackets))
      && (j == |s| ==> r == Scanned(Err(Eof), j, 0))
  {
    RunAllIn(s, i + 1, CommentRun);
  }

  /** The backslash arm of `lex_line`'s loop (`lex_escape`): it must be followed by a terminator, which it swallows. */
  lemma LineContinuation(s: seq<char>, isFloat: string -> bool, i: nat, line: seq<Lexeme>, brackets: seq<Delimiter>)
    requires i < |s| && s[i] == ESCAPE
    ensures var r := LineFrom(s, isFloat, i, line, brackets);
      && (i + 1 < |s| && IsTerminator(s[i + 1]) ==> r == LineFrom(s, isFloat, i + 2, line, brackets))
      && (i + 1 < |s| && !IsTerminator(s[i + 1]) ==> r == Scanned(Err(InvalidEscape(i + 1)), i + 1, 1))
      && (i + 1 == |s| ==> r == Scanned(Err(Eof), i + 1, 0))
  {
  }

  /**
   * One step of `lex_line`'s loop from `i`: either the line has failed, or it
   * ends at a terminator here, or it goes on from a later position with more
   * tokens.
   */
  lemma LineFromStep(s: seq<char>, isFloat: string -> bool, i: nat, line: seq<Lexeme>, brackets: seq<Delimiter>)
    returns (j: nat, more: seq<Lexeme>, next: seq<Delimiter>)
    requires i <= |s|
    ensures var r := LineFrom(s, isFloat, i, line, brackets);
      r.result.Ok? ==>
        (i < |s| && IsTerminator(s[i]) && r == Scanned(Ok(line), i + 1, 0)) ||
        (i < j <= |s| && r == LineFrom(s, isFloat, j, line + more, next))
  {
    j, more, next := i + 1, [], brackets;
    assert line + more == line;
    if i < |s| {
      var token := TokenScan(s, isFloat, i);
      if token.Some? {
        j, more := token.value.pos, if token.value.result.Ok? then [token.value.result.value] else [];
        assert token.value.result.Ok? ==> LineFrom(s, isFloat, i, line, brackets) == LineFrom(s, isFloat, j, line + more, next);
      } else if IsDelimiter(s[i]).Some? {
        var d := IsDelimiter(s[i]).value;
        more, next := [Lexeme.Delimiter(i, d)], Delimit(brackets, d);
        assert LineFrom(s, isFloat, i, line, brackets) == LineFrom(s, isFloat, j, line + more, next);
      } else if s[i] == '#' {
        j := Comment(s, i + 1).pos;
        assert Comment(s, i + 1).result.Ok? ==> LineFrom(s, isFloat, i, line, brackets) == LineFrom(s, isFloat, j, line + more, next);
      } else if s[i] == ESCAPE {
        j := LineEscape(s, i + 1).pos;
        assert LineEscape(s, i + 1).result.Ok? ==> LineFrom(s, isFloat, i, line, brackets) == LineFrom(s, isFloat, j, line + more, next);
      }
    }
  }

  /** A logical line ends just after a terminator, and keeps the tokens it started with at its front. */
  lemma {:induction false} LineFromShape(s: seq<char>, isFloat: string -> bool, i: nat, line: seq<Lexeme>, brackets: seq<Delimiter>)
    requires i <= |s|
    ensures var r := LineFrom(s, isFloat, i, line, brackets);
      r.result.Ok? ==> IsTerminator(s[r.pos - 1]) && line <= r.result.value
    decreases |s| - i
  {
    var j, more, next := LineFromStep(s, isFloat, i, line, brackets);
    var r := LineFrom(s, isFloat, i, line, brackets);
    if r.result.Ok? && !(i < |s| && IsTerminator(s[i]) && r == Scanned(Ok(line), i + 1, 0)) {
      LineFromShape(s, isFloat, j, line + more, next);
    }
  }

  /**
   * `lex` only appends: the output and the indentation stack it started with
   * stay at the front, no entry is popped, and every entry pushed comes with
   * a `Newline` in the appended output.
   */
  lemma {:induction false} LexFromGrows(s: seq<char>, isFloat: string -> bool, i: nat, output: seq<Lexeme>, stack: seq<U8>)
    requires i <= |s|
    ensures var r := LexFrom(s, isFloat, i, output, stack);
      && output <= r.output && stack <= r.stack
      && |r.stack| - |stack| <= multiset(r.output[|output|..])[Newline]
    decreases |s| - i
  {
    var l := Line(s, isFloat, stack, i);
    match l.result
    case Ok((indent, tokens)) =>
      var output' := output + tokens + [Newline];
      LexFromGrows(s, isFloat, l.pos, output', stack + [indent]);
      var r := LexFrom(s, isFloat, l.pos, output', stack + [indent]);
      assert r.output[|output|..] == tokens + [Newline] + r.output[|output'|..];
    case Err(error) =>
      if error == LexerError.Continue {
        LexFromGrows(s, isFloat, l.pos, output, stack);
      }
    case Abort(_) =>
  }
}
