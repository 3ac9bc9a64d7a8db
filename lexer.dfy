/**
 * The lexer object: a multi-peek cursor over the (ASCII) source, the
 * output token vector and the indentation stack, with one method per
 * routine of the source. Every method is proved to leave exactly the
 * result and cursor state of its reference definition in module Scan.
 */
module Lexer {
  import opened Options
  import opened Chars
  import opened Bits
  import opened Lexemes
  import opened Scan

  class Lexer {
    /** The source text; offsets are indices into it. */
    const source: seq<char>
    /** Whether a text parses as an `f64` (Rust's float parser is not modelled). */
    const isFloat: string -> bool
    /** The cursor: `pos` is the next character `next()` yields, `peekAt` how far past it `peek()` looks. */
    var pos: nat
    var peekAt: nat
    var output: seq<Lexeme>
    var stack: seq<U8>

    ghost predicate Valid()
      reads this
    {
      pos <= |source| && AllAscii(source)
    }

    /** `Lexer::new`. */
    constructor (source: seq<char>, isFloat: string -> bool)
      requires AllAscii(source)
      ensures Valid() && this.source == source && this.isFloat == isFloat
      ensures pos == 0 && peekAt == 0 && output == [] && stack == []
    {
      this.source := source;
      this.isFloat := isFloat;
      pos, peekAt := 0, 0;
      output, stack := [], [];
    }

    // ---- The multi-peek cursor ------------------------------------------

    /** `peek()`: the element at the peek index, which advances only when there is one. */
    method Peek() returns (r: Option<(nat, char)>)
      requires Valid()
      modifies this`peekAt
      ensures pos + old(peekAt) < |source| ==>
        r == Some((pos + old(peekAt), source[pos + old(peekAt)])) && peekAt == old(peekAt) + 1
      ensures pos + old(peekAt) >= |source| ==> r == Option.None && peekAt == old(peekAt)
    {
      var k := pos + peekAt;
      if k < |source| {
        r := Some((k, source[k]));
        peekAt := peekAt + 1;
      } else {
        r := Option.None;
      }
    }

    /** `next()`: pops the front element and resets the peek index. */
    method Next() returns (r: Option<(nat, char)>)
      requires Valid()
      modifies this`pos, this`peekAt
      ensures Valid() && peekAt == 0
      ensures old(pos) < |source| ==> r == Some((old(pos), source[old(pos)])) && pos == old(pos) + 1
      ensures old(pos) >= |source| ==> r == Option.None && pos == old(pos)
    {
      peekAt := 0;
      if pos < |source| {
        r := Some((pos, source[pos]));
        pos := pos + 1;
      } else {
        r := Option.None;
      }
    }

    /** `consume`: `next()` with the element dropped. */
    method Consume()
      requires Valid()
      modifies this`pos, this`peekAt
      ensures Valid() && peekAt == 0
      ensures pos == if old(pos) < |source| then old(pos) + 1 else old(pos)
    {
      var _ := Next();
    }

    /** `reset_peek()`. */
    method ResetPeek()
      modifies this`peekAt
      ensures peekAt == 0
    {
      peekAt := 0;
    }

    // ---- Integers with a base prefix ------------------------------------

    /** `lex_hex`. */
    method LexHex() returns (r: Lexeme)
      requires Valid() && peekAt == 0
      modifies this`pos, this`peekAt
      ensures Valid()
      ensures Scanned(Ok(r), pos, peekAt) == Hex(source, old(pos))
    {
      var number: I64 := 0;
      ghost var i0 := pos;
      while true
        invariant Valid() && i0 <= pos && peekAt == 0
        invariant RunEnd(source, pos, HexRun) == RunEnd(source, i0, HexRun)
        invariant number == HexFold(source, i0, pos)
        decreases |source| - pos
      {
        var p := Peek();
        if p.None? {
          break;
        }
        var ch := p.value.1;
        if !IsHexDigit(ch) && ch != '_' {
          break;
        }
        // `number <<= 4`, then `|=` the digit's value or `>>= 4` on `_`
        number := HexStep(number, ch);
        Consume();
      }
      r := Integer(number);
    }

    /** `lex_binary`: the character that ends the number is consumed and shifted for too. */
    method LexBinary() returns (r: Lexeme)
      requires Valid() && peekAt == 0
      modifies this`pos, this`peekAt
      ensures Valid()
      ensures Scanned(Ok(r), pos, peekAt) == Binary(source, old(pos))
    {
      var number: I64 := 0;
      ghost var i0 := pos;
      while true
        invariant Valid() && i0 <= pos && peekAt == 0
        invariant BinaryEnd(source, pos) == BinaryEnd(source, i0)
        invariant number == BinFold(source, i0, pos)
        decreases |source| - pos
      {
        var p := Peek();
        if p.None? {
          break;
        }
        var ch := p.value.1;
        if IsBinDigit(ch) && ch == '_' {
          break;
        }
        Consume();
        number := Shl1(number);
        if ch == '0' {
        } else if ch == '1' {
          number := number + 1;
        } else if ch == '_' {
          number := Sar1(number);
        } else {
          break;
        }
      }
      r := Integer(number);
    }

    /**
     * `lex_octal`. Its loop guard `!ch.is_digit(8) || ch != '_'` holds of
     * every character (lemma LexProps.OctalGuardAlwaysBreaks), so the loop leaves
     * on its first peek and the rest of its body never runs.
     */
    method LexOctal() returns (r: Lexeme)
      requires Valid() && peekAt == 0
      modifies this`peekAt
      ensures Valid()
      ensures Scanned(Ok(r), pos, peekAt) == Octal(source, pos)
    {
      var number := 0;
      var _ := Peek();
      r := Integer(number);
    }

    // ---- Decimal numbers --------------------------------------------------

    /** `lex_leading_zero`. */
    method LexLeadingZero(start: nat) returns (r: Outcome<Lexeme>)
      requires Valid() && peekAt == 0
      modifies this`pos, this`peekAt
      ensures Valid()
      ensures Scanned(r, pos, peekAt) == LeadingZero(source, isFloat, start, old(pos))
    {
      var literal: string := "";
      ghost var i0 := pos;
      while true
        invariant Valid() && i0 <= pos && peekAt == 0
        invariant RunEnd(source, pos, NumberRun) == RunEnd(source, i0, NumberRun)
        invariant literal == DropUnderscores(source, i0, pos)
        decreases |source| - pos
      {
        var p := Peek();
        if p.None? {
          break;
        }
        var ch := p.value.1;
        if ch == '_' {
        } else if IsDigit(ch) || ch == '.' || ch == 'e' || ch == '+' || ch == '-' {
          literal := literal + [ch];
        } else {
          break;
        }
        Consume();
      }
      if literal == [] || forall k :: 0 <= k < |literal| ==> literal[k] == '0' {
        r := Ok(Integer(0));
      } else {
        r := FloatResult(isFloat, literal, start);
      }
    }

    /** `lex_integer`: `number` is the leading non-zero digit, already consumed. */
    method LexInteger(number: char, start: nat) returns (r: Outcome<Lexeme>)
      requires Valid() && peekAt == 0
      modifies this`pos, this`peekAt
      ensures Valid()
      ensures Scanned(r, pos, peekAt) == IntegerScan(source, isFloat, number, start, old(pos))
    {
      var literal: string := [number];
      ghost var i0 := pos;
      while true
        invariant Valid() && i0 <= pos && peekAt == 0
        invariant RunEnd(source, pos, NumberRun) == RunEnd(source, i0, NumberRun)
        invariant literal == [number] + DropUnderscores(source, i0, pos)
        decreases |source| - pos
      {
        var p := Peek();
        if p.None? {
          break;
        }
        var ch := p.value.1;
        if !IsDigit(ch) && ch != '_' && ch != '.' && ch != 'e' && ch != '+' && ch != '-' {
          break;
        }
        Consume();
        if ch != '_' {
          literal := literal + [ch];
        }
      }
      if '.' in literal || 'e' in literal {
        r := FloatResult(isFloat, literal, start);
      } else {
        var parsed := ParseI64(literal);
        if parsed.Some? {
          r := Ok(Integer(parsed.value));
        } else {
          r := Abort(IntegerLiteral);  // `.expect("ICE: Wasn't valid integer.")`
        }
      }
    }

    /** `lex_number`: `ch` is the leading digit, at `start`, already consumed. */
    method LexNumber(ch: char, start: nat) returns (r: Outcome<Lexeme>)
      requires Valid() && peekAt == 0
      modifies this`pos, this`peekAt
      ensures Valid()
      ensures Scanned(r, pos, peekAt) == Number(source, isFloat, ch, start, old(pos))
    {
      if ch == '0' {
        var p := Peek();
        if p.Some? {
          var c := p.value.1;
          if !IsWhitespace(c) && !IsOperatorTerm(c) {
            Consume();
            if c == 'b' || c == 'B' {
              var n := LexBinary();
              r := Ok(n);
            } else if c == 'o' || c == 'O' {
              var n := LexOctal();
              r := Ok(n);
            } else if c == 'x' || c == 'X' {
              var n := LexHex();
              r := Ok(n);
            } else {
              r := LexLeadingZero(start);
            }
          } else {
            r := Ok(Integer(0));
          }
        } else {
          r := Ok(Integer(0));
        }
      } else {
        r := LexInteger(ch, start);
      }
    }

    /** `lex_leading_dot`: the dot, at `start`, is already consumed. */
    method LexLeadingDot(start: nat) returns (r: Outcome<Lexeme>)
      requires Valid() && peekAt == 0
      modifies this`pos, this`peekAt
      ensures Valid()
      ensures Scanned(r, pos, peekAt) == LeadingDot(source, isFloat, start, old(pos))
    {
      var text: string := ".";
      ghost var i0 := pos;
      while true
        invariant Valid() && i0 <= pos && peekAt == 0
        invariant RunEnd(source, pos, DotRun) == RunEnd(source, i0, DotRun)
        invariant text == ['.'] + source[i0..pos]
        decreases |source| - pos
      {
        var p := Peek();
        if p.None? {
          break;
        }
        var ch := p.value.1;
        if !IsDigit(ch) && ch != 'e' && ch != '+' && ch != '-' {
          break;
        }
        ghost var before := source[i0..pos];
        Consume();
        assert source[i0..pos] == before + [ch];
        text := text + [ch];
      }
      if text == "." {
        r := Ok(Lexeme.Operator(Access));
      } else {
        r := FloatResult(isFloat, text, start);
      }
    }

    // ---- Delimiters, escapes and operators ------------------------------------

    /** `lex_delimiter`: the token, and the line's bracket stack afterwards. */
    method LexDelimiter(start: nat, d: Delimiter, brackets: seq<Delimiter>) returns (token: Lexeme, brackets': seq<Delimiter>)
      ensures token == Lexeme.Delimiter(start, d)
      ensures IsOpening(d) ==> brackets' == brackets + [d]
      ensures IsClosing(d) && brackets != [] && IsMatching(brackets[|brackets| - 1], d) ==> brackets' == brackets[..|brackets| - 1]
      ensures IsClosing(d) && (brackets == [] || !IsMatching(brackets[|brackets| - 1], d)) ==> brackets' == brackets
      ensures brackets' == Delimit(brackets, d)
    {
      var pop := false;
      brackets' := brackets;
      if IsOpening(d) {
        brackets' := brackets' + [d];
      } else if brackets' != [] {
        if IsMatching(brackets'[|brackets'| - 1], d) {
          pop := true;
        }
      }
      if pop {
        brackets' := brackets'[..|brackets'| - 1];
      }
      token := Lexeme.Delimiter(start, d);
    }

    /** `lex_escape`: a backslash outside a string, already consumed. */
    method LexEscape() returns (r: Outcome<()>)
      requires Valid() && peekAt == 0
      modifies this`pos, this`peekAt
      ensures Valid()
      ensures Scanned(r, pos, peekAt) == LineEscape(source, old(pos))
    {
      var p := Peek();
      if p.Some? && IsTerminator(p.value.1) {
        Consume();
        r := Ok(());
      } else if p.Some? {
        r := Err(InvalidEscape(p.value.0));
      } else {
        r := Err(Eof);
      }
    }

    /** `lex_operator`: the operator character at `start` is already consumed, and only it is. */
    method LexOperator(start: nat) returns (r: Outcome<Lexeme>)
      requires Valid() && peekAt == 0 && pos == start + 1
      modifies this`peekAt
      ensures Valid()
      ensures Scanned(r, pos, peekAt) == OperatorScan(source, start)
    {
      var end := start;
      var y := Peek();
      if y.Some? {
        if IsOperatorTerm(y.value.1) {
          var z := Peek();
          if z.Some? {
            if IsOperatorTerm(z.value.1) {
              end := z.value.0;
            } else {
              end := y.value.0;
            }
          } else {
            end := y.value.0;
          }
        }
      }
      var word := source[start..end + 1];
      var operator := IsOperator(word);
      if operator.Some? {
        var op := operator.value;
        if op == Add || op == Sub {
          var next := Peek();
          if next.Some? && IsAlphanumeric(next.value.1) {
            op := if op == Add then UnaryAdd else UnarySub;
          }
        }
        r := Ok(Lexeme.Operator(op));
      } else {
        r := Err(InvalidOperator(start, word));
      }
    }

    // ---- Strings and words ----------------------------------------------------

    /** `lex_str`: the opening quote, at `start`, is already consumed. */
    method LexStr(start: nat, quote: char, prefixes: Flags) returns (r: Outcome<Lexeme>)
      requires Valid() && peekAt == 0
      modifies this`pos, this`peekAt
      ensures Valid()
      ensures Scanned(r, pos, peekAt) == StrScan(source, start, quote, prefixes, old(pos))
    {
      var quoteLen := 1;
      var text: string := "";
      var first := Peek();
      if first.None? {
        return Err(Eof);
      }
      if first.value.1 == quote {
        var second := Peek();
        if second.Some? && second.value.1 == quote {
          Consume();
          Consume();
          quoteLen := 3;
        }
      }
      var body := LexStrLoop(start, quote, prefixes, quoteLen);
      if !body.Ok? {
        return Fail(body);
      }
      if Has(prefixes, Prefix.Bytes) {
        r := Ok(Lexeme.Bytes(start, Utf8(body.value)));
      } else {
        r := Ok(Str(start, body.value));
      }
    }

    /** The main loop of `lex_str`: the literal's text up to and including its closing quote(s). */
    method LexStrLoop(start: nat, quote: char, prefixes: Flags, quoteLen: nat) returns (r: Outcome<string>)
      requires Valid()
      modifies this`pos, this`peekAt
      ensures Valid()
      ensures Scanned(r, pos, peekAt) == StrFrom(source, prefixes, start, quote, quoteLen == 3, old(pos), [])
    {
      var text: string := "";
      ghost var body := StrFrom(source, prefixes, start, quote, quoteLen == 3, pos, []);
      while true
        invariant Valid()
        invariant StrFrom(source, prefixes, start, quote, quoteLen == 3, pos, text) == body
        decreases |source| - pos
      {
        ghost var i := pos;
        var next := Next();
        if next.None? {
          return Err(Eof);
        }
        var ch := next.value.1;
        if ch == quote {
          if quoteLen == 3 {
            var closed := LexTripleClose(quote);
            if closed {
              assert body == Scanned(Ok(text), pos, peekAt);
              break;
            }
          } else {
            assert body == Scanned(Ok(text), pos, peekAt);
            break;
          }
        } else if ch == ESCAPE && !Has(prefixes, Raw) {
          var raw := LexStrEscape(start, prefixes);
          if !raw.Ok? {
            return Fail(raw);
          }
          if raw.value.Some? {
            text := text + [raw.value.value];
          }
        } else {
          text := text + [ch];
        }
      }
      r := Ok(text);
    }

    /** The closing check of a triple-quoted literal, after its first quote: two more quotes are consumed, or none. */
    method LexTripleClose(quote: char) returns (closed: bool)
      requires Valid() && peekAt == 0
      modifies this`pos, this`peekAt
      ensures Valid()
      ensures closed <==> old(pos) + 1 < |source| && source[old(pos)] == quote && source[old(pos) + 1] == quote
      ensures pos == if closed then old(pos) + 2 else old(pos)
      ensures closed ==> peekAt == 0
    {
      closed := false;
      var a := Peek();
      if a.Some? && a.value.1 == quote {
        var b := Peek();
        if b.Some? && b.value.1 == quote {
          Consume();
          Consume();
          closed := true;
        }
      }
    }

    /**
     * The escape arm of `lex_str`, after the backslash: the decoded
     * character, or `None` for a line continuation (the arm's `continue`).
     */
    method LexStrEscape(start: nat, prefixes: Flags) returns (r: Outcome<Option<char>>)
      requires Valid()
      modifies this`pos, this`peekAt
      ensures Valid()
      ensures Scanned(r, pos, peekAt) == Escape(source, prefixes, start, old(pos))
    {
      var escaped := Next();
      if escaped.None? {
        return Err(Eof);
      }
      var (x, c) := escaped.value;
      var simple := SimpleEscape(c);
      if simple.Some? {
        r := Ok(simple);
      } else if c == NEWLINE {
        r := Ok(Option.None);
      } else if c == 'x' {
        var h := LexHex();
        var number := h.value;
        if number > 255 {
          return Err(InvalidHex(start));
        }
        if !IsScalar(AsU32(number)) {
          return Err(InvalidHex(start));
        }
        r := Ok(Some(AsU32(number) as char));
      } else if c == 'u' && !Has(prefixes, Prefix.Bytes) {
        var h := LexHex();
        var number := h.value;
        if number > 0xFFFF {
          return Err(InvalidUnicode16(start));
        }
        if !IsScalar(AsU32(number)) {
          return Err(InvalidUnicode16(start));
        }
        r := Ok(Some(AsU32(number) as char));
      } else if c == 'U' && !Has(prefixes, Prefix.Bytes) {
        var h := LexHex();
        var number := h.value;
        if number > U32_MAX {
          return Err(InvalidUnicode32(start));
        }
        if !IsScalar(AsU32(number)) {
          return Err(InvalidUnicode32(start));
        }
        r := Ok(Some(AsU32(number) as char));
      } else {
        r := LexOctalEscape(x);
      }
    }

    /** The fallback arm of the escape table: `x` is the escape character's offset, already consumed. */
    method LexOctalEscape(x: nat) returns (r: Outcome<Option<char>>)
      requires Valid() && x < |source| && pos == x + 1
      modifies this`pos, this`peekAt
      ensures Valid()
      ensures Scanned(r, pos, peekAt) == OctalEscape(source, x)
    {
      var second := Next();
      if second.None? {
        return Err(Eof);
      }
      var third := Next();
      if third.None? {
        return Err(Eof);
      }
      var z := third.value.0;
      var parsed := ParseU32(source[x..z + 1]);
      if parsed.None? {
        return Err(InvalidOctal(x));
      }
      var octal: nat := parsed.value;
      var converted: nat := 0;
      var i: nat := 0;
      while octal > 0
        invariant converted + OctalConvert(octal, i) == OctalConvert(parsed.value, 0)
        decreases octal
      {
        i := i + 1;
        converted := converted + octal % 10 * Pow8(i);
        octal := octal / 10;
      }
      if !IsScalar(converted) {
        return Err(InvalidOctal(x));
      }
      r := Ok(Some(converted as char));
    }

    /** `lex_word`: the word's first character, at `start`, is already consumed. */
    method LexWord(start: nat) returns (r: Outcome<Lexeme>)
      requires Valid() && peekAt == 0 && pos == start + 1
      modifies this`pos, this`peekAt
      ensures Valid()
      ensures Scanned(r, pos, peekAt) == Word(source, start, old(pos))
    {
      var end := start;
      while true
        invariant Valid() && start < pos && end + 1 == pos && peekAt == 0
        invariant RunEnd(source, pos, WordRun) == RunEnd(source, start + 1, WordRun)
        decreases |source| - pos
      {
        var p := Peek();
        if p.None? {
          return Err(Eof);
        }
        var (newEnd, ch) := p.value;
        if !IsAlphanumeric(ch) && ch != '_' {
          break;
        }
        Consume();
        end := newEnd;
      }
      ResetPeek();
      assert end + 1 == RunEnd(source, start + 1, WordRun);
      r := LexWordKind(start);
    }

    /** The tail of `lex_word`: the run is over and `pos` is on the character that ended it. */
    method LexWordKind(start: nat) returns (r: Outcome<Lexeme>)
      requires Valid() && peekAt == 0 && start < pos < |source|
      modifies this`pos, this`peekAt
      ensures Valid()
      ensures Scanned(r, pos, peekAt) == WordKind(source, start, old(pos))
    {
      var word := source[start..pos];
      var q := Peek();
      var ch := q.value.1;
      if ch == '"' || ch == '\'' {
        Consume();
        var flags := IsPrefix(word);
        if flags.None? {
          return Err(InvalidPrefix(word));
        }
        r := LexStr(start, ch, flags.value);
        return;
      }
      var keyword := IsKeyword(word);
      if keyword.Some? {
        r := Ok(Lexeme.Keyword(start, keyword.value));
      } else {
        r := Ok(Identifier(start, word));
      }
    }

    // ---- Lines ------------------------------------------------------------------

    /** `lex_line`: one logical line, its indentation measured against the stack. */
    method LexLine() returns (r: Outcome<(U8, seq<Lexeme>)>)
      requires Valid()
      modifies this`pos, this`peekAt
      ensures Valid()
      ensures Scanned(r, pos, peekAt) == Line(source, isFloat, stack, old(pos))
    {
      var ws := LexIndent();
      if !ws.Ok? {
        return Fail(ws);
      }
      var indent := ws.value;
      var line := IndentLine(indent);
      var tokens := LexLineTokens(line);
      if tokens.Ok? {
        r := Ok((indent, tokens.value));
      } else {
        r := Fail(tokens);
      }
    }

    /** The first loop of `lex_line`: leading spaces and tabs, counted in a `u8`. */
    method LexIndent() returns (r: Outcome<U8>)
      requires Valid()
      modifies this`pos, this`peekAt
      ensures Valid()
      ensures Scanned(r, pos, peekAt) == IndentFrom(source, old(pos), 0)
    {
      var indent: U8 := 0;
      ResetPeek();
      ghost var i0 := pos;
      while true
        invariant Valid() && i0 <= pos && peekAt == 0
        invariant IndentFrom(source, pos, indent) == IndentFrom(source, i0, 0)
        decreases |source| - pos
      {
        var p := Peek();
        if p.None? {
          break;
        }
        var ch := p.value.1;
        if ch == ' ' || ch == '\t' {
          if indent == 255 {
            assert IndentFrom(source, i0, 0) == Scanned(Abort(IndentOverflow), pos, peekAt);
            return Abort(IndentOverflow);  // `indent += 1` overflows the `u8`
          }
          indent := indent + 1;
          Consume();
        } else if IsTerminator(ch) {
          Consume();
          assert IndentFrom(source, i0, 0) == Scanned(Err(LexerError.Continue), pos, peekAt);
          return Err(LexerError.Continue);
        } else {
          break;
        }
      }
      assert IndentFrom(source, i0, 0) == Scanned(Ok(indent), pos, peekAt);
      r := Ok(indent);
    }

    /** The second loop of `lex_line`: walk the indentation stack down from its top, without popping it. */
    method IndentLine(indent: U8) returns (line: seq<Lexeme>)
      ensures line == IndentTokens(stack, indent)
    {
      line := [];
      var k := |stack|;
      assert stack[..k] == stack;
      while k > 0
        invariant 0 <= k <= |stack|
        invariant line + IndentTokens(stack[..k], indent) == IndentTokens(stack, indent)
      {
        var last := stack[k - 1];
        assert stack[..k][..k - 1] == stack[..k - 1];
        if indent == last {
          assert IndentTokens(stack[..k], indent) == [];
          break;
        } else if indent > last {
          assert IndentTokens(stack[..k], indent) == [Indent];
          line := line + [Indent];
          break;
        } else {
          line := line + [Dedent];
        }
        k := k - 1;
      }
      if k == 0 {
        assert stack[..k] == [];
      }
    }

    /**
     * The first five arms of the labelled loop of `lex_line`: the token
     * scanned from the character `ch` at `start`, which is already consumed,
     * or `None` when no sub-scanner takes `ch`.
     */
    method LexToken(start: nat, ch: char) returns (r: Option<Outcome<Lexeme>>)
      requires Valid() && peekAt == 0 && start < |source| && source[start] == ch && pos == start + 1
      modifies this`pos, this`peekAt
      ensures Valid()
      ensures TokenScan(source, isFloat, start).Some? ==> r.Some? && Scanned(r.value, pos, peekAt) == TokenScan(source, isFloat, start).value
      ensures TokenScan(source, isFloat, start).None? ==> r.None? && pos == old(pos) && peekAt == old(peekAt)
    {
      if IsAlphabetic(ch) || ch == '_' {
        var t := LexWord(start);
        r := Some(t);
      } else if IsDigit(ch) {
        var t := LexNumber(ch, start);
        r := Some(t);
      } else if ch == '.' {
        var t := LexLeadingDot(start);
        r := Some(t);
      } else if ch == '"' || ch == '\'' {
        var t := LexStr(start, ch, (Ignore, Ignore));
        r := Some(t);
      } else if IsOperatorTerm(ch) {
        var t := LexOperator(start);
        r := Some(t);
      } else {
        r := Option.None;
      }
    }

    /** The comment arm of the labelled loop of `lex_line`: the `#` is consumed; it stops at, and peeks, the terminator. */
    method LexComment() returns (r: Outcome<()>)
      requires Valid() && peekAt == 0
      modifies this`pos, this`peekAt
      ensures Valid()
      ensures Scanned(r, pos, peekAt) == Comment(source, old(pos))
    {
      ghost var i0 := pos;
      while true
        invariant Valid() && i0 <= pos && peekAt == 0
        invariant RunEnd(source, pos, CommentRun) == RunEnd(source, i0, CommentRun)
        decreases |source| - pos
      {
        var p := Peek();
        if p.None? {
          return Err(Eof);
        }
        if IsTerminator(p.value.1) {
          break;
        }
        Consume();
      }
      r := Ok(());
    }

    /** The labelled loop of `lex_line`: the tokens up to the terminator that ends the line outside brackets. */
    method LexLineTokens(line0: seq<Lexeme>) returns (r: Outcome<seq<Lexeme>>)
      requires Valid()
      modifies this`pos, this`peekAt
      ensures Valid()
      ensures Scanned(r, pos, peekAt) == LineFrom(source, isFloat, old(pos), line0, [])
    {
      var line := line0;
      var brackets: seq<Delimiter> := [];
      ghost var body := LineFrom(source, isFloat, pos, line0, []);
      while true
        invariant Valid()
        invariant LineFrom(source, isFloat, pos, line, brackets) == body
        decreases |source| - pos
      {
        var next := Next();
        if next.None? {
          return Err(Eof);
        }
        var (start, ch) := next.value;
        var token := LexToken(start, ch);
        if token.Some? {
          if !token.value.Ok? {
            return Fail(token.value);
          }
          line := line + [token.value.value];
        } else if IsDelimiter(ch).Some? {
          var t, b := LexDelimiter(start, IsDelimiter(ch).value, brackets);
          line, brackets := line + [t], b;
        } else if ch == '#' {
          var c := LexComment();
          if !c.Ok? {
            return Fail(c);
          }
        } else if ch == ESCAPE {
          var e := LexEscape();
          if !e.Ok? {
            return Fail(e);
          }
        } else if IsTerminator(ch) {
          if brackets == [] {
            break;
          }
        }
      }
      r := Ok(line);
    }

    /** `lex`: lexes line after line, until the end of the source or an error, which panics. */
    method Lex() returns (finish: Finish)
      requires Valid()
      modifies this`pos, this`peekAt, this`output, this`stack
      ensures Valid()
      ensures Lexed(finish, output, stack, pos, peekAt) == LexFrom(source, isFloat, old(pos), old(output), old(stack))
    {
      ghost var all := LexFrom(source, isFloat, pos, output, stack);
      while true
        invariant Valid()
        invariant LexFrom(source, isFloat, pos, output, stack) == all
        decreases |source| - pos
      {
        var l := LexLine();
        if l.Ok? {
          var (indent, tokens) := l.value;
          output := output + tokens + [Newline];
          stack := stack + [indent];
        } else if l == Err(LexerError.Continue) {
          continue;
        } else if l == Err(Eof) {
          return Done;
        } else if l.Err? {
          return Aborted(Reported(l.error));  // `panic!("{:?}", error)`
        } else {
          return Aborted(l.panic);
        }
      }
    }
  }
}
