# Rython lexer, token tables and AST constructors in Dafny

Rython is a Python front end written in Rust. This project models three parts of it.

- **The lexer** (`src/lexer.rs`). It is a single-pass scanner over the source text. Its state is:
  - a `MultiPeek` look-ahead cursor;
  - the output token vector;
  - an indentation stack, pushed once per completed line and never popped;
  - in each line, a bracket stack that decides whether a line terminator ends the logical line.
- **The token tables** (`src/lexeme.rs`). These recognise delimiters, operator characters and spellings, string prefixes and keywords.
- **The AST constructors** (`src/ast.rs`).

## Modules

- `Options`, `Chars`, `Bits`: shared vocabulary.
  - `Chars` holds the ASCII character classes and the terminator and escape constants (`'\n'`, `'\r'`, form feed, `'\\'`).
  - `Bits` holds the `i64` wrap-around, left shifts and arithmetic right shifts used by the number scanners. It also holds the `u32` truncation `as u32`, the `char::from_u32` validity check, and a UTF-8 encoder with its decoder.
- `Lexemes`: the token datatypes and the lookup tables of `src/lexeme.rs`, with lemmas about injectivity, symmetry, case-insensitivity and bijection.
- `Ast`: the expression datatypes and the three constructors of `src/ast.rs`.
- `Scan`: one pure reference function per lexer routine.
  - Each takes the source, a position and its parameters.
  - Each returns `Scanned(result, pos, peek)`. These are the routine's outcome, where the cursor's front ends, and how far the cursor has peeked past it.
  - An outcome is `Ok`, `Err(LexerError)`, or `Abort(Panic)` for a `panic!`, the `.expect` in `lex_integer`, or the `u8` indentation counter overflowing.
- `Lexer`: the class `Lexer`, with fields `source`, `pos` (the front of the `MultiPeek`), `peekAt` (its peek index), `output` and `stack`.
  - Its methods are the loops of `src/lexer.rs`.
  - Each method's postcondition ties its outcome and the cursor's new state to the `Scan` function of the old state.
  - `Lex` also ties the new `output` and `stack` to `Scan.LexFrom`.
- `LexProps`: what the lexer does, proved about the `Scan` functions. This covers:
  - the value a hex or binary fold computes;
  - the cases of a decimal literal, operators and the unary check;
  - string bodies, escapes and octal weights;
  - the indentation tokens, the bracket stack and line framing.

## Behaviour modelled as written

The model follows the code, including where it departs from the obvious intent.

- Octal integers:
  - `lex_octal`'s guard `!is_digit(8) || ch != '_'` always holds, so `0o17` is `Integer(0)` followed by the digits lexed afresh (`LexProps.OctalGuardAlwaysBreaks`, `LexProps.OctalIsZero`).
- Other numbers:
  - `lex_binary` consumes and doubles for the character that ends it (`LexProps.BinaryScan`).
  - After a `0`, a character other than whitespace, an operator character or a base letter is consumed and dropped, so `09` is `Integer(0)` (`LexProps.ZeroDropsNext`).
- Operators:
  - `lex_operator` consumes only the operator's first character.
  - A lone `+` or `-` is unary when the character two places after it is alphanumeric (`LexProps.UnaryTest`).
- Simple escapes: `\f` decodes to U+21A1 and `\v` to U+0011 (`LexProps.OddEscapes`).
- Three-character octal escape: the digits are read as a decimal number and weighted 512, 64 and 8 (`LexProps.OctalWeights`).
- Hex escapes:
  - The bound check of `\x`, `\u` and `\U` is made on the `i64` accumulator before it is truncated to `u32`.
  - The accumulator can wrap from the sixteenth digit on, so `\xFFFFFFFF00000041` passes the check and decodes to `A` (`LexProps.HexEscapeWraps`, `LexProps.HexEscapeNegative`), and `\x10000000000000041` wraps to 65 and decodes to `A` as well (`LexProps.HexEscapePositiveWrap`, `LexProps.HexEscapeBounds`).
- End of input:
  - A word at the very end of the input is `Eof` (`LexProps.WordCases`).
  - A line cut off by the end of the input is dropped (`LexProps.LineFraming`).
- The indentation stack is pushed once for every completed line and never popped; a blank line or a line cut off by the end of the input pushes nothing (`LexProps.LexFromGrows`, `LexProps.LineFraming`).

## Model

| member | source | states |
|---|---|---|
| Lexer.Lexer.constructor | src/lexer.rs:32-39 | a new lexer is at the start of its source with empty output and stack |
| Lexer.Lexer.Peek | src/lexer.rs:421-430 | `MultiPeek::peek`: returns the character at the peek index and advances the index only when there is one |
| Lexer.Lexer.Next | src/lexer.rs:93 | `MultiPeek::next`: pops the front character and resets the peek index |
| Lexer.Lexer.Consume | src/lexer.rs:138-140 | `consume` advances the front by one unless at the end and resets peeking |
| Lexer.Lexer.ResetPeek | src/lexer.rs:65 | `reset_peek` sets the peek index back to the front |
| Lexer.Lexer.LexHex | src/lexer.rs:329-355 | the hex loop ends in the state and with the integer `Scan.Hex` gives |
| Lexer.Lexer.LexBinary | src/lexer.rs:275-297 | the binary loop ends in the state and with the integer `Scan.Binary` gives |
| Lexer.Lexer.LexOctal | src/lexer.rs:299-327 | the octal loop consumes nothing and gives `Integer(0)` |
| Lexer.Lexer.LexLeadingZero | src/lexer.rs:252-273 | the leading-zero loop agrees with `Scan.LeadingZero` |
| Lexer.Lexer.LexInteger | src/lexer.rs:212-243 | the decimal loop agrees with `Scan.IntegerScan`, including the float path and the `.expect` panic |
| Lexer.Lexer.LexNumber | src/lexer.rs:187-210 | the number dispatch agrees with `Scan.Number` |
| Lexer.Lexer.LexLeadingDot | src/lexer.rs:142-162 | the leading-dot loop agrees with `Scan.LeadingDot` |
| Lexer.Lexer.LexDelimiter | src/lexer.rs:164-185 | the token is always `Delimiter(start, d)`; an opening bracket is pushed; a closing one pops only a matching top, else the stack is unchanged |
| Lexer.Lexer.LexEscape | src/lexer.rs:357-367 | the line continuation consumes a terminator, else gives `InvalidEscape` at the peeked offset or `Eof` |
| Lexer.Lexer.LexOperator | src/lexer.rs:369-413 | the operator scan consumes one character and agrees with `Scan.OperatorScan` |
| Lexer.Lexer.LexStr | src/lexer.rs:415-547 | the string scan, triple-quote detection by two peeks included, agrees with `Scan.StrScan` |
| Lexer.Lexer.LexStrLoop | src/lexer.rs:435-540 | the body loop agrees with `Scan.StrFrom` from an empty accumulator |
| Lexer.Lexer.LexTripleClose | src/lexer.rs:439-450 | after a quote in a triple-quoted string, two more quotes are consumed exactly when both follow |
| Lexer.Lexer.LexStrEscape | src/lexer.rs:455-533 | one escape agrees with `Scan.Escape`: the fixed table, the elided newline, `\x`/`\u`/`\U` and the octal fallback |
| Lexer.Lexer.LexOctalEscape | src/lexer.rs:512-533 | the three-character fallback agrees with `Scan.OctalEscape`, its conversion loop proved against `Scan.OctalConvert` |
| Lexer.Lexer.LexWord | src/lexer.rs:549-560 | the word loop agrees with `Scan.Word` |
| Lexer.Lexer.LexWordKind | src/lexer.rs:562-579 | prefix, keyword or identifier, as `Scan.WordKind` says |
| Lexer.Lexer.LexLine | src/lexer.rs:60-136 | one logical line agrees with `Scan.Line` |
| Lexer.Lexer.LexIndent | src/lexer.rs:67-79 | the leading-blank loop agrees with `Scan.IndentFrom` from column 0 |
| Lexer.Lexer.IndentLine | src/lexer.rs:81-90 | the walk down the indentation stack yields `Scan.IndentTokens` and leaves the stack alone |
| Lexer.Lexer.LexToken | src/lexer.rs:95-110 | the five token-scanning arms agree with `Scan.TokenScan`; no arm means nothing consumed |
| Lexer.Lexer.LexComment | src/lexer.rs:116-124 | the comment loop agrees with `Scan.Comment` |
| Lexer.Lexer.LexLineTokens | src/lexer.rs:92-135 | the labelled loop agrees with `Scan.LineFrom` from an empty bracket stack |
| Lexer.Lexer.Lex | src/lexer.rs:41-54 | the driver's final output, stack and cursor are those of `Scan.LexFrom` |
| Scan.Octal | src/lexer.rs:299-327 | the octal scan is `Integer(0)` and consumes nothing |
| Scan.FloatResult | src/lexer.rs:245-250 | `Float(text)` exactly when the text parses as a float, else `InvalidFloat(start)` |
| Scan.ParseI64 | src/lexer.rs:241 | a digit string within `i64` parses to its decimal value |
| Scan.OperatorLength | src/lexer.rs:370-386 | the looked-up spelling has one to three characters within the source |
| Scan.OperatorScan | src/lexer.rs:369-413 | the operator scan always ends one past its start |
| Scan.Comment | src/lexer.rs:116-124 | a comment that ends well stops on a line terminator |
| Scan.TokenScan | src/lexer.rs:95-110 | a token-scanning arm always consumes at least its first character |
| Lexemes.DelimiterCharacters | src/lexeme.rs:39-51 | `is_delimiter` accepts exactly the six bracket characters, each with its variant |
| Lexemes.OpeningClosing | src/lexeme.rs:53-64 | `is_opening` holds exactly for the three opening brackets; `is_closing` is its negation |
| Lexemes.MatchingPartners | src/lexeme.rs:66-77 | `is_matching` is symmetric and pairs the same family with opposite openness |
| Lexemes.MatchingUnique | src/lexeme.rs:66-77 | each delimiter matches exactly one partner |
| Lexemes.OperatorSpellingShape | src/lexeme.rs:127-180 | every operator spelling has one to three characters, all operator characters |
| Lexemes.OperatorSpellingInverse | src/lexeme.rs:136-180 | `is_operator` and the spelling table are inverse to each other |
| Lexemes.OperatorSpelled | src/lexeme.rs:136-180 | an accepted spelling is the spelling of the operator it yields |
| Lexemes.SpellingRecognised | src/lexeme.rs:136-180 | each spelled operator's spelling is recognised as that operator |
| Lexemes.OperatorInjective | src/lexeme.rs:136-180 | distinct spellings yield distinct operators |
| Lexemes.NoUnarySpelling | src/lexeme.rs:17-24 | no spelling yields a lexeme for which `is_unary` holds, and `"!"` is rejected |
| Lexemes.PrefixSpellingsExact | src/lexeme.rs:192-221 | `is_prefix` accepts exactly 24 distinct spellings |
| Lexemes.PrefixCaseInsensitive | src/lexeme.rs:192-221 | `is_prefix` ignores letter case |
| Lexemes.PrefixShort | src/lexeme.rs:192-221 | an accepted prefix has one or two characters |
| Lexemes.PrefixFlags | src/lexeme.rs:192-221 | the flag pair holds `Raw`, `Bytes`, `Formatted` exactly when r, b, f appear; never both `Bytes` and `Formatted`; u/U give `[Ignore, Ignore]` |
| Lexemes.KeywordBijection | src/lexeme.rs:264-302 | `is_keyword` is a bijection between its 34 spellings and the 34 keywords |
| Lexemes.KeywordSpelled | src/lexeme.rs:264-302 | an accepted keyword spelling is the spelling of the keyword it yields |
| Lexemes.KeywordRecognised | src/lexeme.rs:264-302 | every keyword's spelling is recognised as that keyword |
| Ast.NewUnaryOp | src/ast.rs:19-21 | `new_unary_op` builds `Operation(lhs, op, None)` |
| Ast.NewBinaryOp | src/ast.rs:23-27 | `new_binary_op` builds `Operation(lhs, op, Some(rhs))` |
| Ast.NewAttributeRef | src/ast.rs:73-82 | on two primaries, an attribute reference with both operands in order; any other shape panics, so it is excluded by the precondition |
| Ast.UnaryBinaryDistinct | src/ast.rs:19-27 | a unary operation is never a binary one, and binary operations with the same right side are equal only for equal left sides and operators |
| Ast.IsNumberExact | src/ast.rs:29-36 | `is_number` holds exactly for a literal atom, whatever the literal, and never for an operation |
| Ast.AttributeRefOrder | src/ast.rs:73-79 | the operands keep their order: swapping distinct operands changes the result |
| Bits.Wrap | src/lexer.rs:340 | `i64` wrap-around is congruent modulo 2^64 and the identity within range |
| Bits.Shl1Exact | src/lexer.rs:284 | `number <<= 1` doubles when no bit is lost |
| Bits.Shl4Exact | src/lexer.rs:340 | `number <<= 4` multiplies by 16 when no bit is lost |
| Bits.Sar1 | src/lexer.rs:289 | `number >>= 1` is floor division by 2 |
| Bits.Sar4 | src/lexer.rs:347 | `number >>= 4` is floor division by 16 |
| Bits.AsU32 | src/lexer.rs:477 | `as u32` is the input's low 32 bits: at most `u32::MAX`, congruent to the input modulo 2^32, and the identity in range |
| Bits.EncodeChar | src/lexer.rs:543 | a character's UTF-8 form has one to four bytes, one exactly for ASCII |
| Bits.EncodeCharRoundTrip | src/lexer.rs:543 | decoding the first character of an encoding gives the character and its length back |
| Bits.Utf8RoundTrip | src/lexer.rs:543 | `into_bytes` is decodable back to the string's code points |
| LexProps.HexFoldValue | src/lexer.rs:340-347 | the hex fold is the positional value of the digits, separators skipped, while it stays below 2^59 |
| LexProps.HexScan | src/lexer.rs:329-355 | `lex_hex` stops at the end of the hex-or-`_` run, having peeked the stopping character, with the run's value |
| LexProps.BinFoldValue | src/lexer.rs:284-289 | the binary fold is the positional value of the bits, separators skipped, while it stays below 2^62 |
| LexProps.BinaryScan | src/lexer.rs:275-297 | `lex_binary` consumes the terminating character too and doubles the value for it |
| LexProps.BinaryEndShape | src/lexer.rs:277-295 | the binary loop ends at the end of the input or just after the first non-binary character |
| LexProps.OctalGuardAlwaysBreaks | src/lexer.rs:304-306 | the octal guard holds for every character |
| LexProps.DropUnderscoresMembers | src/lexer.rs:228-232 | the literal holds exactly the run's characters other than `_` |
| LexProps.IntegerLiteralChars | src/lexer.rs:216-232 | the literal has no `_`; a literal with no `.`/`e` that is not all digits holds a sign |
| LexProps.IntegerCases | src/lexer.rs:212-243 | a `.` or `e` goes to the float path; otherwise `Integer` of the decimal value exactly when all digits within `i64`, else the `.expect` panic |
| LexProps.LeadingZeroCases | src/lexer.rs:252-273 | `Integer(0)` exactly when the run is zeros and `_`, else the float path on the run without `_` |
| LexProps.LeadingDotAccess | src/lexer.rs:142-162 | `.` is `Access` exactly when no digit, `e`, `+` or `-` follows, else the float path on `.` and the run |
| LexProps.ZeroAlone | src/lexer.rs:190-206 | a `0` before whitespace, an operator character or the end is `Integer(0)` |
| LexProps.OctalIsZero | src/lexer.rs:196 | `0o` is `Integer(0)` and stops after the `o` |
| LexProps.ZeroDropsNext | src/lexer.rs:191-198 | any other character after `0` is dropped before the leading-zero scan |
| LexProps.OperatorWordShape | src/lexer.rs:372-386 | the looked-up word is the operator character and up to two following operator characters |
| LexProps.OperatorOutcome | src/lexer.rs:369-413 | an unknown word is `InvalidOperator(start, word)`; a known one gives its operator, reclassified only from `+`/`-`; never a panic |
| LexProps.UnaryTest | src/lexer.rs:390-404 | a lone `+`/`-` is unary exactly when the character two past it is alphanumeric |
| LexProps.PlainString | src/lexer.rs:435-453 | a single-quoted body with no quote or escape is copied up to the closing quote |
| LexProps.TripleString | src/lexer.rs:438-450 | a triple-quoted body is copied up to the three closing quotes |
| LexProps.TripleLoneQuote | src/lexer.rs:439-450 | inside a triple-quoted string a quote not followed by two more is dropped |
| LexProps.UnterminatedString | src/lexer.rs:436 | a body that runs to the end of the input is `Eof` |
| LexProps.SimpleEscapeInString | src/lexer.rs:455-465 | a table escape appends its decoded character |
| LexProps.LineContinuationInString | src/lexer.rs:466 | backslash-newline is elided |
| LexProps.RawBackslash | src/lexer.rs:454 | under `Raw` a backslash is copied |
| LexProps.OddEscapes | src/lexer.rs:456-465 | `\f` is U+21A1, `\v` is U+0011, `\a` and `\b` are U+0007 and U+0008; `\0` and `\x` are not table escapes |
| LexProps.HexEscapeBounds | src/lexer.rs:467-511 | a decoded hex escape is a valid char equal to the accumulator's low 32 bits; each rejection is its letter's error at `start`; an accumulator above 255, 0xFFFF or `u32::MAX` is refused for `\x`, `\u`, `\U`; a value within the limit that is a scalar decodes to that value, and so does any accumulator (wrapped or not) within the limit that is a scalar |
| LexProps.HexEscapeNegative | src/lexer.rs:467-511 | a negative accumulator whose low 32 bits are a scalar passes every bound check and decodes to those bits |
| LexProps.UnicodeUnderBytes | src/lexer.rs:482-533 | under the bytes prefix `\u` and `\U` take the octal fallback, which refuses them |
| LexProps.HexEscapeWraps | src/lexer.rs:467-480 | `\xFFFFFFFF00000041` passes the bound check through `i64` wrap-around and decodes to `A` |
| LexProps.HexEscapePositiveWrap | src/lexer.rs:467-480 | `\x10000000000000041` wraps its `i64` accumulator to 65, passes the bound check and decodes to `A` |
| LexProps.OctalWeights | src/lexer.rs:522-527 | the conversion loop weights the decimal digits by 512, 64 and 8 |
| LexProps.OctalEscapeDigits | src/lexer.rs:512-533 | three digits after the backslash decode to that weighted value and consume all three |
| LexProps.BytesRoundTrip | src/lexer.rs:542-543 | under `Bytes` the token holds the UTF-8 of the body, which decodes back to it |
| LexProps.StrTokenCases | src/lexer.rs:542-546 | otherwise the token is `Str(start, body)`; failures pass through with the cursor unchanged |
| LexProps.WordCases | src/lexer.rs:549-580 | the word runs to the first non-word character; at the end it is `Eof`; a quote after it makes it a prefix or `InvalidPrefix(word)`; else a keyword or an identifier |
| LexProps.IndentCounts | src/lexer.rs:67-72 | each space or tab adds one column |
| LexProps.IndentOverflows | src/lexer.rs:69-71 | the 256th leading blank overflows the `u8` counter and panics |
| LexProps.BlankLine | src/lexer.rs:73-76 | a blank line is consumed through its terminator and changes neither output nor stack |
| LexProps.LineFraming | src/lexer.rs:41-54 | a completed line appends its tokens and one `Newline` and pushes its indent; a line cut off by the end changes nothing and ends lexing |
| LexProps.IndentTokensShape | src/lexer.rs:81-90 | one `Dedent` per stack entry above the indent from the top, then nothing at an equal entry or the bottom, or one `Indent` at a smaller entry |
| LexProps.IndentTokensEntries | src/lexer.rs:81-90 | at most one token per stack entry, each `Dedent` against a larger entry and only a last `Indent` against a smaller one |
| LexProps.IndentTokensStop | src/lexer.rs:81-90 | a walk that ends on `Dedent` or nothing before the bottom stopped at an equal entry |
| LexProps.DelimitOpenings | src/lexer.rs:164-185 | the bracket stack only ever holds opening brackets; push on opening, pop only on a matching top |
| LexProps.LineDispatch | src/lexer.rs:111-133 | a bracket is a `Delimiter` token; a terminator ends the line only with no open bracket; other characters are skipped |
| LexProps.LineComment | src/lexer.rs:114-124 | `#` skips to the next terminator, or is `Eof` at the end |
| LexProps.LineContinuation | src/lexer.rs:125-127 | a backslash swallows a following terminator, else `InvalidEscape` at the next offset, or `Eof` |
| LexProps.LineFromStep | src/lexer.rs:92-134 | each turn of the line loop fails, ends the line at a terminator, or goes on from a later position |
| LexProps.LineFromShape | src/lexer.rs:92-135 | a completed line ends just after a terminator and keeps its indentation tokens at its front |
| LexProps.LexFromGrows | src/lexer.rs:41-54 | `lex` only appends to the output and pushes to the stack, with at least one `Newline` in the appended output per push |

## Left out

- `src/parser.rs`, `src/types.rs` and `src/main.rs` are not part of this model: the parser has no grammar, the types have no behaviour, and `main` is file I/O.
- The `Debug` impl of `Lexer` (formatting) and its `Deref`/`DerefMut` impls (plumbing): the cursor is modelled directly as `pos` and `peekAt`.
- Float values: `f64` parsing is the parameter `isFloat`, a predicate on the literal text, and `Float` carries the text.
- `Primary::new_call` and `Primary::new_subscription` are `unimplemented!()`, and `Primary::Slice` wraps the uninhabited `Never`. None of the three is modelled.
- `Ast.NewAttributeRef` returns the primary itself rather than `Result<Primary, ParseError>`, since it never returns `Err` (`ParseError` has no variants).
- Non-ASCII source: the constructor requires an ASCII source, so byte offsets are indices and the character classes are ASCII ones. The UTF-8 encoder covers every `char` because `Bytes` literals can hold decoded escapes such as U+21A1.
- The `symbols` module is not part of this model: its constants are taken to be `'\n'`, `'\r'`, U+000C and `'\\'`.
- The `u8` indentation counter panics on overflow, as in a debug build; the release-build wrap-around is not modelled.
- Lexer.Lexer.LexHex: like the other sub-scanner methods, it requires the peek index at the front (`peekAt == 0`), which every call site provides.
- Lexer.Lexer.LexStr: `lex_str` is split into `LexStr`, `LexStrLoop`, `LexTripleClose`, `LexStrEscape` and `LexOctalEscape`; `lex_line` and `lex_word` are split the same way. Each helper is one part of the original body.
- LexProps.HexScan: states the value only while the fold stays below 2^59, where no `i64` wrap-around occurs; beyond that only the stopping position is stated.
- LexProps.HexFoldValue: same bound as `HexScan`.
- LexProps.BinaryScan: states the value only below 2^62 (2^61 when the terminator's extra shift applies).
- LexProps.BinFoldValue: same bound as `BinaryScan`.
- LexProps.HexEscapeBounds: the "at most 255 / 0xFFFF" reading holds only for a non-negative accumulator; the negative case is stated by `LexProps.HexEscapeNegative` and illustrated by `LexProps.HexEscapeWraps`. Success is stated twice: through `HexValue` for a digit run whose value is within the limit, and through the accumulator itself for any run whose wrapped `i64` value is non-negative, within the limit and a scalar.
- LexProps.LexFromGrows: states that output and stack grow as prefixes and counts `Newline`s, not the exact tokens; `LexProps.LineFraming` gives those one line at a time.
