/**
 * The token model of the lexer: the `Lexeme` variants and the closed
 * lookup tables for delimiters, operators, string prefixes and keywords.
 */
module Lexemes {
  import opened Options
  import opened Bits
  import opened Chars

  /** A token. Offsets are indices into the (ASCII) source; `Float` keeps its literal text. */
  datatype Lexeme =
    | Bytes(offset: nat, bytes: seq<Byte>)
    | Dedent
    | Delimiter(offset: nat, delimiter: Delimiter)
    | Float(text: string)
    | Identifier(offset: nat, name: string)
    | Indent
    | Integer(value: I64)
    | Keyword(offset: nat, keyword: Keyword)
    | Newline
    | Operator(operator: Operator)
    | Str(offset: nat, content: string)

  /** `Lexeme::is_unary`: the three operators the lexer reclassifies (or could) as unary. */
  predicate IsUnary(l: Lexeme) {
    l.Operator? && (l.operator == UnaryAdd || l.operator == UnarySub || l.operator == UnaryNot)
  }

  datatype Delimiter = DictClose | DictOpen | ListClose | ListOpen | ParenClose | ParenOpen

  /** `Delimiter::is_delimiter`. */
  function IsDelimiter(c: char): Option<Delimiter> {
    match c
    case '{' => Some(DictOpen)
    case '}' => Some(DictClose)
    case '[' => Some(ListOpen)
    case ']' => Some(ListClose)
    case '(' => Some(ParenOpen)
    case ')' => Some(ParenClose)
    case _ => Option.None
  }

  /** `Delimiter::is_opening`. */
  predicate IsOpening(d: Delimiter) {
    d == DictOpen || d == ListOpen || d == ParenOpen
  }

  /** `Delimiter::is_closing`. */
  predicate IsClosing(d: Delimiter) {
    !IsOpening(d)
  }

  /** `Delimiter::is_matching`: `other` is the partner of `d`. */
  predicate IsMatching(d: Delimiter, other: Delimiter) {
    other == match d
      case DictClose => DictOpen
      case ListClose => ListOpen
      case ParenClose => ParenOpen
      case DictOpen => DictClose
      case ListOpen => ListClose
      case ParenOpen => ParenClose
  }

  /** The bracket family of a delimiter (used to state what matching means). */
  function Family(d: Delimiter): nat {
    match d
    case DictClose => 0
    case DictOpen => 0
    case ListClose => 1
    case ListOpen => 1
    case ParenClose => 2
    case ParenOpen => 2
  }
  datatype Operator =
    | Access
    | Add
    | AddAssign
    | And
    | AndAssign
    | Colon
    | Assign
    | Dec
    | DecAssign
    | Div
    | DivAssign
    | Equals
    | FuncAnno
    | LessThan
    | LessThanEqual
    | MoreThan
    | MoreThanEqual
    | Mul
    | MulAssign
    | Not
    | NotEquals
    | Or
    | OrAssign
    | Pow
    | PowAssign
    | Rem
    | RemAssign
    | FloorDiv
    | FloorDivAssign
    | Sep
    | Shl
    | ShlAssign
    | Shr
    | ShrAssign
    | Sub
    | SubAssign
    | Term
    | UnaryAdd
    | UnarySub
    | UnaryNot
    | Xor
    | XorAssign
  /** `Operator::is_operator_term`: the characters operator spellings are made of. */
  predicate IsOperatorTerm(c: char) {
    c == '+' || c == '=' || c == '&' || c == '@' || c == '/' ||
    c == '<' || c == '>' || c == '*' || c == '~' || c == '!' ||
    c == '|' || c == '%' || c == '^' || c == '-' || c == ',' ||
    c == ':' || c == ';' || c == '.'
  }


  /** `Operator::is_operator`: the spelling table, one arm per operator, in the order of the source's arms. */
  function IsOperator(w: string): Option<Operator> {
    match w
    case "." => Some(Operator.Access)
    case "+" => Some(Operator.Add)
    case "+=" => Some(Operator.AddAssign)
    case "&" => Some(Operator.And)
    case "&=" => Some(Operator.AndAssign)
    case ":" => Some(Operator.Colon)
    case "=" => Some(Operator.Assign)
    case "@" => Some(Operator.Dec)
    case "@=" => Some(Operator.DecAssign)
    case "," => Some(Operator.Sep)
    case "/" => Some(Operator.Div)
    case "/=" => Some(Operator.DivAssign)
    case "==" => Some(Operator.Equals)
    case "->" => Some(Operator.FuncAnno)
    case "<" => Some(Operator.LessThan)
    case "<=" => Some(Operator.LessThanEqual)
    case ">" => Some(Operator.MoreThan)
    case ">=" => Some(Operator.MoreThanEqual)
    case "*" => Some(Operator.Mul)
    case "*=" => Some(Operator.MulAssign)
    case "~" => Some(Operator.Not)
    case "!=" => Some(Operator.NotEquals)
    case "|" => Some(Operator.Or)
    case "|=" => Some(Operator.OrAssign)
    case "**" => Some(Operator.Pow)
    case "**=" => Some(Operator.PowAssign)
    case "%" => Some(Operator.Rem)
    case "%=" => Some(Operator.RemAssign)
    case "//" => Some(Operator.FloorDiv)
    case "//=" => Some(Operator.FloorDivAssign)
    case "<<" => Some(Operator.Shl)
    case "<<=" => Some(Operator.ShlAssign)
    case ">>" => Some(Operator.Shr)
    case ">>=" => Some(Operator.ShrAssign)
    case "-" => Some(Operator.Sub)
    case "-=" => Some(Operator.SubAssign)
    case ";" => Some(Operator.Term)
    case "^" => Some(Operator.Xor)
    case "^=" => Some(Operator.XorAssign)
    case _ => Option.None
  }

  /** The spelling of each operator, the inverse of the table (unary operators have none). */
  function OperatorSpelling(op: Operator): Option<string> {
    match op
    case Access => Some(".")
    case Add => Some("+")
    case AddAssign => Some("+=")
    case And => Some("&")
    case AndAssign => Some("&=")
    case Colon => Some(":")
    case Assign => Some("=")
    case Dec => Some("@")
    case DecAssign => Some("@=")
    case Div => Some("/")
    case DivAssign => Some("/=")
    case Equals => Some("==")
    case FuncAnno => Some("->")
    case LessThan => Some("<")
    case LessThanEqual => Some("<=")
    case MoreThan => Some(">")
    case MoreThanEqual => Some(">=")
    case Mul => Some("*")
    case MulAssign => Some("*=")
    case Not => Some("~")
    case NotEquals => Some("!=")
    case Or => Some("|")
    case OrAssign => Some("|=")
    case Pow => Some("**")
    case PowAssign => Some("**=")
    case Rem => Some("%")
    case RemAssign => Some("%=")
    case FloorDiv => Some("//")
    case FloorDivAssign => Some("//=")
    case Sep => Some(",")
    case Shl => Some("<<")
    case ShlAssign => Some("<<=")
    case Shr => Some(">>")
    case ShrAssign => Some(">>=")
    case Sub => Some("-")
    case SubAssign => Some("-=")
    case Term => Some(";")
    case UnaryAdd => Option.None
    case UnarySub => Option.None
    case UnaryNot => Option.None
    case Xor => Some("^")
    case XorAssign => Some("^=")
  }

  datatype Prefix = Raw | Formatted | Bytes | Ignore

  /** The two flags `Prefix::is_prefix` returns, as the array `[Prefix; 2]`. */
  type Flags = (Prefix, Prefix)

  /** `[Prefix; 2]::contains`. */
  predicate Has(f: Flags, p: Prefix) {
    f.0 == p || f.1 == p
  }

  /** `Prefix::is_prefix`: the string-prefix table. */
  function IsPrefix(w: string): Option<Flags> {
    match w
    case "B" => Some((Prefix.Bytes, Prefix.Ignore))
    case "BR" => Some((Prefix.Bytes, Prefix.Raw))
    case "Br" => Some((Prefix.Bytes, Prefix.Raw))
    case "F" => Some((Prefix.Formatted, Prefix.Ignore))
    case "FR" => Some((Prefix.Formatted, Prefix.Raw))
    case "Fr" => Some((Prefix.Formatted, Prefix.Raw))
    case "R" => Some((Prefix.Raw, Prefix.Ignore))
    case "RB" => Some((Prefix.Bytes, Prefix.Raw))
    case "RF" => Some((Prefix.Formatted, Prefix.Raw))
    case "Rb" => Some((Prefix.Bytes, Prefix.Raw))
    case "Rf" => Some((Prefix.Formatted, Prefix.Raw))
    case "U" => Some((Prefix.Ignore, Prefix.Ignore))
    case "b" => Some((Prefix.Bytes, Prefix.Ignore))
    case "bR" => Some((Prefix.Bytes, Prefix.Raw))
    case "br" => Some((Prefix.Bytes, Prefix.Raw))
    case "f" => Some((Prefix.Formatted, Prefix.Ignore))
    case "fR" => Some((Prefix.Formatted, Prefix.Raw))
    case "fr" => Some((Prefix.Formatted, Prefix.Raw))
    case "r" => Some((Prefix.Raw, Prefix.Ignore))
    case "rB" => Some((Prefix.Bytes, Prefix.Raw))
    case "rF" => Some((Prefix.Formatted, Prefix.Raw))
    case "rb" => Some((Prefix.Bytes, Prefix.Raw))
    case "rf" => Some((Prefix.Formatted, Prefix.Raw))
    case "u" => Some((Prefix.Ignore, Prefix.Ignore))
    case _ => Option.None
  }

  /** The accepted prefix spellings, in the order of the table. */
  const PrefixSpellings: seq<string> := ["B", "BR", "Br", "F", "FR", "Fr", "R", "RB", "RF", "Rb", "Rf", "U", "b", "bR", "br", "f", "fR", "fr", "r", "rB", "rF", "rb", "rf", "u"]
  datatype Keyword =
    | And
    | As
    | Assert
    | Await
    | Break
    | Class
    | Continue
    | Def
    | Del
    | Elif
    | Else
    | Except
    | False
    | Finally
    | For
    | From
    | Global
    | If
    | Import
    | In
    | Is
    | Lambda
    | NonLocal
    | None
    | Not
    | Or
    | Pass
    | Raise
    | Return
    | True
    | Try
    | While
    | With
    | Yield


  /** `Keyword::is_keyword`: the reserved-word table, one arm per keyword, in the order of the source's arms. */
  function IsKeyword(w: string): Option<Keyword> {
    match w
    case "False" => Some(Keyword.False)
    case "None" => Some(Keyword.None)
    case "True" => Some(Keyword.True)
    case "and" => Some(Keyword.And)
    case "as" => Some(Keyword.As)
    case "assert" => Some(Keyword.Assert)
    case "await" => Some(Keyword.Await)
    case "break" => Some(Keyword.Break)
    case "class" => Some(Keyword.Class)
    case "continue" => Some(Keyword.Continue)
    case "def" => Some(Keyword.Def)
    case "del" => Some(Keyword.Del)
    case "elif" => Some(Keyword.Elif)
    case "else" => Some(Keyword.Else)
    case "except" => Some(Keyword.Except)
    case "finally" => Some(Keyword.Finally)
    case "for" => Some(Keyword.For)
    case "from" => Some(Keyword.From)
    case "global" => Some(Keyword.Global)
    case "if" => Some(Keyword.If)
    case "import" => Some(Keyword.Import)
    case "in" => Some(Keyword.In)
    case "is" => Some(Keyword.Is)
    case "lambda" => Some(Keyword.Lambda)
    case "nonlocal" => Some(Keyword.NonLocal)
    case "not" => Some(Keyword.Not)
    case "or" => Some(Keyword.Or)
    case "pass" => Some(Keyword.Pass)
    case "raise" => Some(Keyword.Raise)
    case "return" => Some(Keyword.Return)
    case "try" => Some(Keyword.Try)
    case "while" => Some(Keyword.While)
    case "with" => Some(Keyword.With)
    case "yield" => Some(Keyword.Yield)
    case _ => Option.None
  }

  /** The spelling of each keyword, the inverse of the table. */
  function KeywordSpelling(k: Keyword): string {
    match k
    case And => "and"
    case As => "as"
    case Assert => "assert"
    case Await => "await"
    case Break => "break"
    case Class => "class"
    case Continue => "continue"
    case Def => "def"
    case Del => "del"
    case Elif => "elif"
    case Else => "else"
    case Except => "except"
    case False => "False"
    case Finally => "finally"
    case For => "for"
    case From => "from"
    case Global => "global"
    case If => "if"
    case Import => "import"
    case In => "in"
    case Is => "is"
    case Lambda => "lambda"
    case NonLocal => "nonlocal"
    case None => "None"
    case Not => "not"
    case Or => "or"
    case Pass => "pass"
    case Raise => "raise"
    case Return => "return"
    case True => "True"
    case Try => "try"
    case While => "while"
    case With => "with"
    case Yield => "yield"
  }

  // Properties of the tables

  /** Exactly the six bracket characters are delimiters, each with its own variant. */
  lemma DelimiterCharacters(c: char)
    ensures IsDelimiter(c).Some? <==> c in "{}[]()"
    ensures (IsDelimiter(c) == Some(DictOpen) <==> c == '{') && (IsDelimiter(c) == Some(DictClose) <==> c == '}')
    ensures (IsDelimiter(c) == Some(ListOpen) <==> c == '[') && (IsDelimiter(c) == Some(ListClose) <==> c == ']')
    ensures (IsDelimiter(c) == Some(ParenOpen) <==> c == '(') && (IsDelimiter(c) == Some(ParenClose) <==> c == ')')
  {
  }

  /** Openness: three opening delimiters, and closing is its complement. */
  lemma OpeningClosing(d: Delimiter)
    ensures IsOpening(d) <==> d in {DictOpen, ListOpen, ParenOpen}
    ensures IsClosing(d) <==> !IsOpening(d)
    ensures IsClosing(d) <==> d in {DictClose, ListClose, ParenClose}
  {
  }

  /** Matching is symmetric, and a delimiter matches exactly the other member of its family. */
  lemma MatchingPartners(d: Delimiter, e: Delimiter)
    ensures IsMatching(d, e) <==> IsMatching(e, d)
    ensures IsMatching(d, e) <==> Family(d) == Family(e) && IsOpening(d) != IsOpening(e)
  {
  }

  /** A delimiter has one partner only. */
  lemma MatchingUnique(d: Delimiter, e: Delimiter, e': Delimiter)
    requires IsMatching(d, e) && IsMatching(d, e')
    ensures e == e'
  {
  }

  /** Every accepted operator spelling has one to three characters, all operator characters. */
  lemma OperatorSpellingShape(w: string)
    requires IsOperator(w).Some?
    ensures 1 <= |w| <= 3
    ensures forall k :: 0 <= k < |w| ==> IsOperatorTerm(w[k])
  {
  }

  /** The table and the spelling function are inverse: a spelling names one operator and back. */
  lemma OperatorSpellingInverse(w: string, op: Operator)
    ensures IsOperator(w) == Some(op) <==> OperatorSpelling(op) == Some(w)
  {
    OperatorSpelled(w);
    if OperatorSpelling(op).Some? {
      SpellingRecognised(op);
    }
  }

  /** Each spelling the table accepts is the spelling of the operator it yields. */
  lemma OperatorSpelled(w: string)
    ensures IsOperator(w).Some? ==> OperatorSpelling(IsOperator(w).value) == Some(w)
  {
  }

  /** Each operator with a spelling is recognised from it. */
  lemma SpellingRecognised(op: Operator)
    requires OperatorSpelling(op).Some?
    ensures IsOperator(OperatorSpelling(op).value) == Some(op)
  {
    if op.Access? || op.Add? || op.AddAssign? || op.And? || op.AndAssign? || op.Colon? || op.Assign? || op.Dec? || op.DecAssign? || op.Div? {
      SpellingRecognised0(op);
    }
    if op.DivAssign? || op.Equals? || op.FuncAnno? || op.LessThan? || op.LessThanEqual? || op.MoreThan? || op.MoreThanEqual? || op.Mul? || op.MulAssign? || op.Not? {
      SpellingRecognised1(op);
    }
    if op.NotEquals? || op.Or? || op.OrAssign? || op.Pow? || op.PowAssign? || op.Rem? || op.RemAssign? || op.FloorDiv? || op.FloorDivAssign? || op.Sep? {
      SpellingRecognised2(op);
    }
    if op.Shl? || op.ShlAssign? || op.Shr? || op.ShrAssign? || op.Sub? || op.SubAssign? || op.Term? || op.Xor? || op.XorAssign? {
      SpellingRecognised3(op);
    }
  }

  lemma SpellingRecognised0(op: Operator)
    requires op.Access? || op.Add? || op.AddAssign? || op.And? || op.AndAssign? || op.Colon? || op.Assign? || op.Dec? || op.DecAssign? || op.Div?
    ensures IsOperator(OperatorSpelling(op).value) == Some(op)
  {
  }

  lemma SpellingRecognised1(op: Operator)
    requires op.DivAssign? || op.Equals? || op.FuncAnno? || op.LessThan? || op.LessThanEqual? || op.MoreThan? || op.MoreThanEqual? || op.Mul? || op.MulAssign? || op.Not?
    ensures IsOperator(OperatorSpelling(op).value) == Some(op)
  {
  }

  lemma SpellingRecognised2(op: Operator)
    requires op.NotEquals? || op.Or? || op.OrAssign? || op.Pow? || op.PowAssign? || op.Rem? || op.RemAssign? || op.FloorDiv? || op.FloorDivAssign? || op.Sep?
    ensures IsOperator(OperatorSpelling(op).value) == Some(op)
  {
  }

  lemma SpellingRecognised3(op: Operator)
    requires op.Shl? || op.ShlAssign? || op.Shr? || op.ShrAssign? || op.Sub? || op.SubAssign? || op.Term? || op.Xor? || op.XorAssign?
    ensures IsOperator(OperatorSpelling(op).value) == Some(op)
  {
  }

  /** Distinct spellings give distinct operators. */
  lemma OperatorInjective(w: string, w': string)
    requires IsOperator(w).Some? && IsOperator(w) == IsOperator(w')
    ensures w == w'
  {
    OperatorSpellingInverse(w, IsOperator(w).value);
    OperatorSpellingInverse(w', IsOperator(w).value);
  }

  /** The table never produces a unary operator, and a lone `!` is no spelling. */
  lemma NoUnarySpelling(w: string)
    ensures IsOperator(w).Some? ==> !IsUnary(Lexeme.Operator(IsOperator(w).value))
    ensures IsOperator("!") == Option.None
  {
  }

  /** The prefix table accepts exactly its 24 distinct spellings. */
  lemma PrefixSpellingsExact(w: string)
    ensures IsPrefix(w).Some? <==> w in PrefixSpellings
    ensures |PrefixSpellings| == 24
    ensures forall i, j :: 0 <= i < j < |PrefixSpellings| ==> PrefixSpellings[i] != PrefixSpellings[j]
  {
  }

  /** Prefixes do not depend on letter case. */
  lemma PrefixCaseInsensitive(w: string)
    ensures IsPrefix(w) == IsPrefix(Lower(w))
  {
    if |w| == 1 {
      assert w == [w[0]];
      assert Lower(w) == [ToLower(w[0])];
    } else if |w| == 2 {
      assert w == [w[0], w[1]];
      assert Lower(w) == [ToLower(w[0]), ToLower(w[1])];
    } else {
      PrefixShort(w);
      PrefixShort(Lower(w));
    }
  }

  lemma PrefixShort(w: string)
    ensures IsPrefix(w).Some? ==> 1 <= |w| <= 2
  {
  }

  /** The flags of an accepted prefix are the letters it contains. */
  lemma PrefixFlags(w: string, f: Flags)
    requires IsPrefix(w) == Some(f)
    ensures Has(f, Raw) <==> 'r' in w || 'R' in w
    ensures Has(f, Prefix.Bytes) <==> 'b' in w || 'B' in w
    ensures Has(f, Formatted) <==> 'f' in w || 'F' in w
    ensures !(Has(f, Prefix.Bytes) && Has(f, Formatted))
    ensures f == (Ignore, Ignore) <==> w == "u" || w == "U"
  {
  }

  /** The keyword table is a bijection between its spellings and the keywords. */
  lemma KeywordBijection(w: string, k: Keyword)
    ensures IsKeyword(KeywordSpelling(k)) == Some(k)
    ensures IsKeyword(w) == Some(k) ==> w == KeywordSpelling(k)
  {
    KeywordRecognised(k);
    KeywordSpelled(w);
  }

  /** Each word the table accepts is the spelling of the keyword it yields. */
  lemma KeywordSpelled(w: string)
    ensures IsKeyword(w).Some? ==> KeywordSpelling(IsKeyword(w).value) == w
  {
  }

  lemma KeywordRecognised(k: Keyword)
    ensures IsKeyword(KeywordSpelling(k)) == Some(k)
  {
    match k
    case And =>
    case As =>
    case Assert =>
    case Await =>
    case Break =>
    case Class =>
    case Continue =>
    case Def =>
    case Del =>
    case Elif =>
    case Else =>
    case Except =>
    case False =>
    case Finally =>
    case For =>
    case From =>
    case Global =>
    case If =>
    case Import =>
    case In =>
    case Is =>
    case Lambda =>
    case NonLocal =>
    case None =>
    case Not =>
    case Or =>
    case Pass =>
    case Raise =>
    case Return =>
    case True =>
    case Try =>
    case While =>
    case With =>
    case Yield =>
  }
}
