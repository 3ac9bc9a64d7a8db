/**
 * Reference definitions of every routine of the lexer, as functions of the
 * source text and the cursor position. Each returns the routine's result
 * together with where the cursor is left: `pos` is the index of the next
 * character `next()` returns, `peek` the look-ahead index of the
 * multi-peek cursor (how far past `pos` the next `peek()` looks).
 * The class in lexer.dfy is proved to compute exactly these.
 */
module Scan {
  import opened Options
  import opened Chars
  import opened Bits
  import opened Lexemes

  datatype LexerError =
    | Continue
    | Eof
    | InvalidEscape(offset: nat)
    | InvalidHex(offset: nat)
    | InvalidFloat(offset: nat)
    | InvalidInteger(offset: nat)
    | InvalidOctal(offset: nat)
    | InvalidOperator(offset: nat, word: string)
    | InvalidPrefix(word: string)
    | InvalidUnicode16(offset: nat)
    | InvalidUnicode32(offset: nat)

  /** Why the program panics: `lex` on a reported error, the integer `.expect`, or the `u8` indentation overflowing. */
  datatype Panic = Reported(error: LexerError) | IntegerLiteral | IndentOverflow

  /** A routine's result: a value, a `LexerError`, or a panic. */
  datatype Outcome<T> = Ok(value: T) | Err(error: LexerError) | Abort(panic: Panic)

  /** The failure of one outcome as the failure of another type. */
  function Fail<T, U>(o: Outcome<T>): (r: Outcome<U>)
    requires !o.Ok?
    ensures r.Err? == o.Err? && (r.Err? ==> r.error == o.error) && (r.Abort? ==> r.panic == o.panic)
  {
    if o.Err? then Err(o.error) else Abort(o.panic)
  }

  datatype Scanned<T> = Scanned(result: Outcome<T>, pos: nat, peek: nat)

  /** The look-ahead left by a loop that stopped because `peek()` at `j` saw a character it refused (1) or the end (0). */
  function StopPeek(s: seq<char>, j: nat): nat {
    if j < |s| then 1 else 0
  }

  /** The character classes the scanning loops run over. */
  datatype Run = HexRun | NumberRun | DotRun | WordRun | CommentRun

  predicate InRun(run: Run, c: char) {
    match run
    case HexRun => IsHexOrSep(c)
    case NumberRun => IsNumberChar(c)
    case DotRun => IsDotChar(c)
    case WordRun => IsWordChar(c)
    case CommentRun => NotTerminator(c)
  }

  /** The end of the maximal run of characters of class `run` from `i`. */
  function RunEnd(s: seq<char>, i: nat, run: Run): (j: nat)
    requires i <= |s|
    ensures i <= j <= |s|
    ensures j < |s| ==> !InRun(run, s[j])
    decreases |s| - i
  {
    if i < |s| && InRun(run, s[i]) then RunEnd(s, i + 1, run) else i
  }

  // ---- Integers with a base prefix ------------------------------------

  predicate IsHexOrSep(c: char) {
    IsHexDigit(c) || c == '_'
  }

  predicate IsBinOrSep(c: char) {
    IsBinDigit(c) || c == '_'
  }

  /** One iteration of the `lex_hex` loop: shift left by four, then or in the digit, or shift back on `_`. */
  function HexStep(acc: I64, c: char): I64 {
    var shifted := Shl4(acc);
    if c == '_' then Sar4(shifted) else if IsHexDigit(c) then shifted + HexDigitValue(c) else shifted
  }

  /** The `lex_hex` accumulator after the characters `s[i..j]`. */
  function HexFold(s: seq<char>, i: nat, j: nat): I64
    requires i <= j <= |s|
    decreases j
  {
    if j == i then 0 else HexStep(HexFold(s, i, j - 1), s[j - 1])
  }

  /** `lex_hex` from `i`: it stops, without consuming it, at the first character that is neither a hex digit nor `_`. */
  function Hex(s: seq<char>, i: nat): (r: Scanned<Lexeme>)
    requires i <= |s|
    ensures r.result.Ok? && r.result.value.Integer?
    ensures i <= r.pos <= |s|
  {
    var j := RunEnd(s, i, HexRun);
    Scanned(Ok(Integer(HexFold(s, i, j))), j, StopPeek(s, j))
  }

  /** One iteration of the `lex_binary` loop; a character other than `0`, `1`, `_` is shifted for and ends the loop. */
  function BinStep(acc: I64, c: char): I64 {
    var shifted := Shl1(acc);
    if c == '1' then shifted + 1 else if c == '_' then Sar1(shifted) else shifted
  }

  /** The `lex_binary` accumulator after the characters `s[i..j]`. */
  function BinFold(s: seq<char>, i: nat, j: nat): I64
    requires i <= j <= |s|
    decreases j
  {
    if j == i then 0 else BinStep(BinFold(s, i, j - 1), s[j - 1])
  }

  /** Where `lex_binary` stops: at the end, or just after the first character that is not `0`, `1` or `_`. */
  function BinaryEnd(s: seq<char>, i: nat): (j: nat)
    requires i <= |s|
    ensures i <= j <= |s|
    decreases |s| - i
  {
    if i >= |s| then i else if IsBinOrSep(s[i]) then BinaryEnd(s, i + 1) else i + 1
  }

  /** `lex_binary` from `i`. */
  function Binary(s: seq<char>, i: nat): (r: Scanned<Lexeme>)
    requires i <= |s|
    ensures r.result.Ok? && r.result.value.Integer?
    ensures i <= r.pos <= |s|
  {
    var j := BinaryEnd(s, i);
    Scanned(Ok(Integer(BinFold(s, i, j))), j, 0)
  }

  /** `lex_octal` from `i`: its loop guard always breaks, so it peeks once and yields zero. */
  function Octal(s: seq<char>, i: nat): (r: Scanned<Lexeme>)
    requires i <= |s|
    ensures r.result == Ok(Integer(0)) && r.pos == i
  {
    Scanned(Ok(Integer(0)), i, StopPeek(s, i))
  }

  // ---- Decimal numbers and floats ---------------------------------------

  /** The characters `lex_integer` and `lex_leading_zero` accept. */
  predicate IsNumberChar(c: char) {
    IsDigit(c) || c == '_' || c == '.' || c == 'e' || c == '+' || c == '-'
  }

  /** The characters `lex_leading_dot` accepts after the dot. */
  predicate IsDotChar(c: char) {
    IsDigit(c) || c == 'e' || c == '+' || c == '-'
  }

  /** The characters `s[i..j]` with the underscores left out. */
  function DropUnderscores(s: seq<char>, i: nat, j: nat): (r: seq<char>)
    requires i <= j <= |s|
    ensures |r| <= j - i
    decreases j
  {
    if j == i then [] else DropUnderscores(s, i, j - 1) + (if s[j - 1] == '_' then [] else [s[j - 1]])
  }

  /** `lex_float`: whether `text` parses as an `f64` is the parameter `isFloat`. */
  function FloatResult(isFloat: string -> bool, text: string, start: nat): (r: Outcome<Lexeme>)
    ensures r.Ok? <==> isFloat(text)
    ensures r.Ok? ==> r.value == Float(text)
    ensures !r.Ok? ==> r == Err(InvalidFloat(start))
  {
    if isFloat(text) then Ok(Float(text)) else Err(InvalidFloat(start))
  }

  /** `str::parse::<i64>`: an optional sign, then at least one digit, in range. */
  function ParseI64(t: string): (r: Option<I64>)
    ensures AllDigits(t) && t != [] && DecimalValue(t) <= I64_MAX ==> r == Some(DecimalValue(t))
    ensures r.Some? ==> forall k :: 0 < k < |t| ==> IsDigit(t[k])
  {
    if |t| > 0 && (t[0] == '+' || t[0] == '-') then
      var d := t[1..];
      if |d| > 0 && AllDigits(d) then
        var v: int := if t[0] == '-' then 0 - DecimalValue(d) as int else DecimalValue(d);
        if I64_MIN <= v <= I64_MAX then Some(v) else Option.None
      else Option.None
    else if |t| > 0 && AllDigits(t) && DecimalValue(t) <= I64_MAX then Some(DecimalValue(t))
    else Option.None
  }

  /** `lex_integer`: `first` is the non-zero leading digit, already consumed; `i` the next position. */
  function IntegerScan(s: seq<char>, isFloat: string -> bool, first: char, start: nat, i: nat): (r: Scanned<Lexeme>)
    requires i <= |s|
    ensures i <= r.pos <= |s|
  {
    var j := RunEnd(s, i, NumberRun);
    var literal := [first] + DropUnderscores(s, i, j);
    var result :=
      if '.' in literal || 'e' in literal then FloatResult(isFloat, literal, start)
      else match ParseI64(literal)
        case Some(v) => Ok(Lexeme.Integer(v))
        case None => Abort(IntegerLiteral);
    Scanned(result, j, StopPeek(s, j))
  }

  /** `lex_leading_zero`: an empty or all-zero run is zero, anything else must parse as a float. */
  function LeadingZero(s: seq<char>, isFloat: string -> bool, start: nat, i: nat): (r: Scanned<Lexeme>)
    requires i <= |s|
    ensures i <= r.pos <= |s|
  {
    var j := RunEnd(s, i, NumberRun);
    var literal := DropUnderscores(s, i, j);
    var result :=
      if literal == [] || forall k :: 0 <= k < |literal| ==> literal[k] == '0' then Ok(Lexeme.Integer(0))
      else FloatResult(isFloat, literal, start);
    Scanned(result, j, StopPeek(s, j))
  }

  /** `lex_leading_dot`: the dot has been consumed; `i` is the next position. */
  function LeadingDot(s: seq<char>, isFloat: string -> bool, start: nat, i: nat): (r: Scanned<Lexeme>)
    requires i <= |s|
    ensures i <= r.pos <= |s|
  {
    var j := RunEnd(s, i, DotRun);
    var result := if j == i then Ok(Lexeme.Operator(Access)) else FloatResult(isFloat, ['.'] + s[i..j], start);
    Scanned(result, j, StopPeek(s, j))
  }

  /** `lex_number`: `ch` is the leading digit at `start`, already consumed; `i` is the next position. */
  function Number(s: seq<char>, isFloat: string -> bool, ch: char, start: nat, i: nat): (r: Scanned<Lexeme>)
    requires i <= |s|
    ensures i <= r.pos <= |s|
  {
    if ch == '0' then
      if i < |s| && !IsWhitespace(s[i]) && !IsOperatorTerm(s[i]) then
        var c := s[i];
        if c == 'b' || c == 'B' then Binary(s, i + 1)
        else if c == 'o' || c == 'O' then Octal(s, i + 1)
        else if c == 'x' || c == 'X' then Hex(s, i + 1)
        else LeadingZero(s, isFloat, start, i + 1)
      else Scanned(Ok(Lexeme.Integer(0)), i, StopPeek(s, i))
    else IntegerScan(s, isFloat, ch, start, i)
  }

  // ---- Operators -----------------------------------------------------------

  /** How many characters `lex_operator` looks up: the operator character and up to two directly following operator characters. */
  function OperatorLength(s: seq<char>, start: nat): (n: nat)
    requires start < |s|
    ensures 1 <= n <= 3 && start + n <= |s|
  {
    var y := start + 1;
    if y < |s| && IsOperatorTerm(s[y]) then
      if y + 1 < |s| && IsOperatorTerm(s[y + 1]) then 3 else 2
    else 1
  }

  /** `lex_operator` for the operator character at `start`, already consumed. */
  function OperatorScan(s: seq<char>, start: nat): (r: Scanned<Lexeme>)
    requires start < |s|
    ensures r.pos == start + 1
  {
    var y := start + 1;
    var looked := if y >= |s| then 0 else if !IsOperatorTerm(s[y]) then 1 else if y + 1 >= |s| then 1 else 2;
    var word := s[start..start + OperatorLength(s, start)];
    match IsOperator(word)
    case None => Scanned(Err(InvalidOperator(start, word)), y, looked)
    case Some(op) =>
      if op == Add || op == Sub then
        var q := y + looked;
        var op' := if q < |s| && IsAlphanumeric(s[q]) then (if op == Add then UnaryAdd else UnarySub) else op;
        Scanned(Ok(Lexeme.Operator(op')), y, if q < |s| then looked + 1 else looked)
      else Scanned(Ok(Lexeme.Operator(op)), y, looked)
  }

  // ---- Strings ---------------------------------------------------------------

  /** The fixed part of the escape table of `lex_str`. */
  function SimpleEscape(c: char): Option<char> {
    match c
    case 't' => Some('\t')
    case 'n' => Some('\n')
    case 'r' => Some('\r')
    case '\'' => Some('\'')
    case '"' => Some('"')
    case 'a' => Some('\U{0007}')
    case 'b' => Some('\U{0008}')
    case 'f' => Some('\U{21A1}')
    case 'v' => Some('\U{0011}')
    case '\\' => Some('\\')
    case _ => Option.None
  }

  /** `str::parse::<u32>`: an optional `+`, then at least one digit, in range. */
  function ParseU32(t: string): (r: Option<nat>)
    ensures r.Some? ==> r.value <= U32_MAX
  {
    var d := if |t| > 0 && t[0] == '+' then t[1..] else t;
    if |d| > 0 && AllDigits(d) && DecimalValue(d) <= U32_MAX then Some(DecimalValue(d)) else Option.None
  }

  function Pow8(k: nat): (p: nat)
    ensures p >= 1
  {
    if k == 0 then 1 else 8 * Pow8(k - 1)
  }

  /** The conversion loop of the escape fallback: the `i`-th decimal digit from the right (from 1) is weighted by 8 to the `i`. */
  function OctalConvert(octal: nat, i: nat): nat
    decreases octal
  {
    if octal == 0 then 0 else octal % 10 * Pow8(i + 1) + OctalConvert(octal / 10, i + 1)
  }

  /** The `\x`, `\u` and `\U` escapes: the largest accepted value and the error reported above it. */
  function HexEscapeLimit(x: char, start: nat): (int, LexerError) {
    if x == 'x' then (255, InvalidHex(start))
    else if x == 'u' then (0xFFFF, InvalidUnicode16(start))
    else (U32_MAX, InvalidUnicode32(start))
  }

  /** The `\x`, `\u` and `\U` escapes: `x` is the escape letter, `i` the position after it. */
  function HexEscape(s: seq<char>, x: char, start: nat, i: nat): (r: Scanned<Option<char>>)
    requires i <= |s|
    ensures i <= r.pos <= |s|
    ensures r.result.Ok? ==> r.result.value.Some?
  {
    var h := Hex(s, i);
    var number := h.result.value.value;
    var (limit, error) := HexEscapeLimit(x, start);
    if number > limit || !IsScalar(AsU32(number)) then Scanned(Err(error), h.pos, h.peek)
    else Scanned(Ok(Some(AsU32(number) as char)), h.pos, h.peek)
  }

  /** The fallback escape: the escape character at `e` and the two after it, read as a decimal `u32` and converted. */
  function OctalEscape(s: seq<char>, e: nat): (r: Scanned<Option<char>>)
    requires e < |s|
    ensures e < r.pos <= |s|
    ensures r.result.Ok? ==> r.result.value.Some?
  {
    if e + 1 >= |s| then Scanned(Err(Eof), e + 1, 0)
    else if e + 2 >= |s| then Scanned(Err(Eof), e + 2, 0)
    else match ParseU32(s[e..e + 3])
      case None => Scanned(Err(InvalidOctal(e)), e + 3, 0)
      case Some(octal) =>
        var converted := OctalConvert(octal, 0);
        if IsScalar(converted) then Scanned(Ok(Some(converted as char)), e + 3, 0)
        else Scanned(Err(InvalidOctal(e)), e + 3, 0)
  }

  /**
   * The escape arm of `lex_str`: the backslash is consumed and `e` is the
   * position of the escape character. `Some(c)` is the character it decodes
   * to; `None` is a line continuation, which adds nothing.
   */
  function Escape(s: seq<char>, flags: Flags, start: nat, e: nat): (r: Scanned<Option<char>>)
    requires e <= |s|
    ensures e < r.pos <= |s| || (e == |s| && r == Scanned(Err(Eof), e, 0))
  {
    if e >= |s| then Scanned(Err(Eof), e, 0)
    else
      var x := s[e];
      if SimpleEscape(x).Some? then Scanned(Ok(SimpleEscape(x)), e + 1, 0)
      else if x == NEWLINE then Scanned(Ok(Option.None), e + 1, 0)
      else if x == 'x' || ((x == 'u' || x == 'U') && !Has(flags, Prefix.Bytes)) then HexEscape(s, x, start, e + 1)
      else OctalEscape(s, e)
  }

  /**
   * The loop of `lex_str` from position `i` with the text decoded so far in
   * `acc`: `start` is the literal's offset, `quote` its quote character.
   */
  function StrFrom(s: seq<char>, flags: Flags, start: nat, quote: char, triple: bool, i: nat, acc: string): (r: Scanned<string>)
    requires i <= |s|
    ensures i <= r.pos <= |s|
    decreases |s| - i
  {
    if i >= |s| then Scanned(Err(Eof), i, 0)
    else
      var c := s[i];
      if c == quote then
        if !triple then Scanned(Ok(acc), i + 1, 0)
        else if i + 2 < |s| && s[i + 1] == quote && s[i + 2] == quote then Scanned(Ok(acc), i + 3, 0)
        else StrFrom(s, flags, start, quote, triple, i + 1, acc)
      else if c == ESCAPE && !Has(flags, Raw) then
        var esc := Escape(s, flags, start, i + 1);
        match esc.result
        case Ok(Some(raw)) => StrFrom(s, flags, start, quote, triple, esc.pos, acc + [raw])
        case Ok(None) => StrFrom(s, flags, start, quote, triple, esc.pos, acc)
        case _ => Scanned(Fail(esc.result), esc.pos, esc.peek)
      else StrFrom(s, flags, start, quote, triple, i + 1, acc + [c])
  }

  /** The token `lex_str` makes of the outcome of its loop. */
  function StrToken(start: nat, flags: Flags, body: Scanned<string>): Scanned<Lexeme> {
    var result :=
      if !body.result.Ok? then Fail(body.result)
      else if Has(flags, Prefix.Bytes) then Ok(Lexeme.Bytes(start, Utf8(body.result.value)))
      else Ok(Str(start, body.result.value));
    Scanned(result, body.pos, body.peek)
  }

  /** `lex_str`: the opening quote has been consumed; `i` is the next position. */
  function StrScan(s: seq<char>, start: nat, quote: char, flags: Flags, i: nat): (r: Scanned<Lexeme>)
    requires i <= |s|
    ensures i <= r.pos <= |s|
  {
    if i >= |s| then Scanned(Err(Eof), i, 0)
    else
      var triple := s[i] == quote && i + 1 < |s| && s[i + 1] == quote;
      StrToken(start, flags, StrFrom(s, flags, start, quote, triple, if triple then i + 2 else i, []))
  }

  // ---- Words -----------------------------------------------------------------

  predicate IsWordChar(c: char) {
    IsAlphanumeric(c) || c == '_'
  }

  /** `lex_word` for the word starting at `start`, whose first character is consumed; `i` is the next position. */
  function Word(s: seq<char>, start: nat, i: nat): (r: Scanned<Lexeme>)
    requires start <= i <= |s|
    ensures i <= r.pos <= |s|
  {
    var j := RunEnd(s, i, WordRun);
    if j >= |s| then Scanned(Err(Eof), j, 0) else WordKind(s, start, j)
  }

  /** What the word `s[start..j]` is, judged by the character `s[j]` that ended it. */
  function WordKind(s: seq<char>, start: nat, j: nat): (r: Scanned<Lexeme>)
    requires start <= j < |s|
    ensures j <= r.pos <= |s|
  {
    var word := s[start..j];
    if s[j] == '"' || s[j] == '\'' then
      match IsPrefix(word)
      case None => Scanned(Err(InvalidPrefix(word)), j + 1, 0)
      case Some(flags) => StrScan(s, start, s[j], flags, j + 1)
    else
      var token := match IsKeyword(word)
        case Some(k) => Lexeme.Keyword(start, k)
        case None => Identifier(start, word);
      Scanned(Ok(token), j, 1)
  }

  // ---- Lines -------------------------------------------------------------------

  /** `lex_escape`: a backslash outside a string, already consumed; `i` is the next position. */
  function LineEscape(s: seq<char>, i: nat): (r: Scanned<()>)
    requires i <= |s|
    ensures i <= r.pos <= |s|
  {
    if i < |s| && IsTerminator(s[i]) then Scanned(Ok(()), i + 1, 0)
    else if i < |s| then Scanned(Err(InvalidEscape(i)), i, 1)
    else Scanned(Err(Eof), i, 0)
  }

  /** `lex_delimiter`'s effect on the line's bracket stack. */
  function Delimit(stack: seq<Delimiter>, d: Delimiter): seq<Delimiter> {
    if IsOpening(d) then stack + [d]
    else if stack != [] && IsMatching(stack[|stack| - 1], d) then stack[..|stack| - 1]
    else stack
  }

  /** The leading-whitespace loop of `lex_line` from `i`, with `indent` columns counted so far. */
  function IndentFrom(s: seq<char>, i: nat, indent: U8): (r: Scanned<U8>)
    requires i <= |s|
    ensures i <= r.pos <= |s|
    ensures r.result == Err(LexerError.Continue) ==> i < r.pos
    decreases |s| - i
  {
    if i >= |s| then Scanned(Ok(indent), i, 0)
    else if s[i] == ' ' || s[i] == '\t' then
      if indent == 255 then Scanned(Abort(IndentOverflow), i, 1) else IndentFrom(s, i + 1, indent + 1)
    else if IsTerminator(s[i]) then Scanned(Err(LexerError.Continue), i + 1, 0)
    else Scanned(Ok(indent), i, 1)
  }

  /** The `Indent`/`Dedent` tokens of a line at `indent` columns, scanning `stack` from its top. */
  function IndentTokens(stack: seq<U8>, indent: U8): seq<Lexeme> {
    if stack == [] then []
    else
      var last := stack[|stack| - 1];
      if indent == last then []
      else if indent > last then [Indent]
      else [Dedent] + IndentTokens(stack[..|stack| - 1], indent)
  }

  predicate NotTerminator(c: char) {
    !IsTerminator(c)
  }

  /** The comment loop of `lex_line`, after the `#`: it stops at the terminator but does not consume it. */
  function Comment(s: seq<char>, i: nat): (r: Scanned<()>)
    requires i <= |s|
    ensures i <= r.pos <= |s|
    ensures r.result.Ok? ==> r.pos < |s| && IsTerminator(s[r.pos])
  {
    var j := RunEnd(s, i, CommentRun);
    if j >= |s| then Scanned(Err(Eof), j, 0) else Scanned(Ok(()), j, 1)
  }

  /** The sub-scanner a character dispatches to, for the five kinds of token that take a scan. */
  function TokenScan(s: seq<char>, isFloat: string -> bool, start: nat): (r: Option<Scanned<Lexeme>>)
    requires start < |s|
    ensures r.Some? ==> start < r.value.pos <= |s|
  {
    var ch := s[start];
    if IsAlphabetic(ch) || ch == '_' then Some(Word(s, start, start + 1))
    else if IsDigit(ch) then Some(Number(s, isFloat, ch, start, start + 1))
    else if ch == '.' then Some(LeadingDot(s, isFloat, start, start + 1))
    else if ch == '"' || ch == '\'' then Some(StrScan(s, start, ch, (Ignore, Ignore), start + 1))
    else if IsOperatorTerm(ch) then Some(OperatorScan(s, start))
    else Option.None
  }

  /** The labelled loop of `lex_line` from `i`, with the line's tokens so far and its bracket stack. */
  function LineFrom(s: seq<char>, isFloat: string -> bool, i: nat, line: seq<Lexeme>, brackets: seq<Delimiter>)
    : (r: Scanned<seq<Lexeme>>)
    requires i <= |s|
    ensures i <= r.pos <= |s|
    ensures r.result.Ok? ==> i < r.pos
    decreases |s| - i
  {
    if i >= |s| then Scanned(Err(Eof), i, 0)
    else
      var ch := s[i];
      var token := TokenScan(s, isFloat, i);
      if token.Some? then
        var sub := token.value;
        if sub.result.Ok? then LineFrom(s, isFloat, sub.pos, line + [sub.result.value], brackets)
        else Scanned(Fail(sub.result), sub.pos, sub.peek)
      else if IsDelimiter(ch).Some? then
        var d := IsDelimiter(ch).value;
        LineFrom(s, isFloat, i + 1, line + [Lexeme.Delimiter(i, d)], Delimit(brackets, d))
      else if ch == '#' then
        var c := Comment(s, i + 1);
        if c.result.Ok? then LineFrom(s, isFloat, c.pos, line, brackets) else Scanned(Fail(c.result), c.pos, c.peek)
      else if ch == ESCAPE then
        var e := LineEscape(s, i + 1);
        if e.result.Ok? then LineFrom(s, isFloat, e.pos, line, brackets) else Scanned(Fail(e.result), e.pos, e.peek)
      else if IsTerminator(ch) && brackets == [] then Scanned(Ok(line), i + 1, 0)
      else LineFrom(s, isFloat, i + 1, line, brackets)
  }

  /** `lex_line` from `i` against the indentation stack `stack`. */
  function Line(s: seq<char>, isFloat: string -> bool, stack: seq<U8>, i: nat): (r: Scanned<(U8, seq<Lexeme>)>)
    requires i <= |s|
    ensures i <= r.pos <= |s|
    ensures r.result.Ok? || r.result == Err(LexerError.Continue) ==> i < r.pos
  {
    var ws := IndentFrom(s, i, 0);
    if !ws.result.Ok? then Scanned(Fail(ws.result), ws.pos, ws.peek)
    else
      var indent := ws.result.value;
      var body := LineFrom(s, isFloat, ws.pos, IndentTokens(stack, indent), []);
      Scanned(if body.result.Ok? then Ok((indent, body.result.value)) else Fail(body.result), body.pos, body.peek)
  }

  datatype Finish = Done | Aborted(panic: Panic)

  /** The state `lex` leaves: how it ended, the output and stack, and the cursor. */
  datatype Lexed = Lexed(finish: Finish, output: seq<Lexeme>, stack: seq<U8>, pos: nat, peek: nat)

  /** `lex` from `i`, with the output and indentation stack so far. */
  function LexFrom(s: seq<char>, isFloat: string -> bool, i: nat, output: seq<Lexeme>, stack: seq<U8>): (r: Lexed)
    requires i <= |s|
    ensures i <= r.pos <= |s|
    decreases |s| - i
  {
    var l := Line(s, isFloat, stack, i);
    match l.result
    case Ok((indent, tokens)) => LexFrom(s, isFloat, l.pos, output + tokens + [Newline], stack + [indent])
    case Err(error) =>
      if error == LexerError.Continue then LexFrom(s, isFloat, l.pos, output, stack)
      else if error == Eof then Lexed(Done, output, stack, l.pos, l.peek)
      else Lexed(Aborted(Reported(error)), output, stack, l.pos, l.peek)
    case Abort(p) => Lexed(Aborted(p), output, stack, l.pos, l.peek)
  }
}
