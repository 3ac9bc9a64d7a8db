/**
 * The syntax tree the parser is meant to build: statements, expressions,
 * comparisons, atoms and primaries, with the three constructors and the
 * one shape predicate that exist for them.
 */
module Ast {
  import opened Options
  import L = Lexemes

  datatype Ast = Statement(statement: Statement) | Expression(expression: Expression)

  /** `Operation` covers unary (no right operand) and binary operators. */
  datatype Expression =
    | Await(inner: Expression)
    | Comparison(comparison: Comparison)
    | Operation(lhs: Expression, op: L.Operator, rhs: Option<Expression>)
    | Primary(primary: Primary)

  datatype Comparison =
    | Op(left: Expression, operator: L.Operator, right: Expression)
    | Keyword(kleft: Expression, keyword: L.Keyword, kright: Expression)
    | Truthy(test: Expression)
    | Notty(negated: Expression)

  datatype Atom =
    | Identifier(offset: nat, name: string)
    | Literal(lexeme: L.Lexeme)
    | Yield(yielded: Expression)

  /** The argument and subscript lists are the unit placeholder `()`. */
  datatype Primary =
    | Atom(atom: Atom)
    | AttributeRef(owner: Primary, attribute: Primary)
    | Subscription(subscripted: Primary, subscripts: ())
    | Call(callee: Primary, arguments: ())

  datatype Statement = Assignment(target: Expression, value: Expression)

  /** `Expression::new_unary_op`: an operation with no right operand. */
  function NewUnaryOp(lhs: Expression, op: L.Operator): (e: Expression)
    ensures e.Operation? && e.lhs == lhs && e.op == op && e.rhs == Option.None
  {
    Operation(lhs, op, Option.None)
  }

  /** `Expression::new_binary_op`: an operation with both operands. */
  function NewBinaryOp(lhs: Expression, op: L.Operator, rhs: Expression): (e: Expression)
    ensures e.Operation? && e.lhs == lhs && e.op == op && e.rhs == Some(rhs)
  {
    Operation(lhs, op, Some(rhs))
  }

  /** `Expression::is_number`: a literal atom, whatever token it holds. */
  predicate IsNumber(e: Expression) {
    match e
    case Primary(Atom(Literal(_))) => true
    case _ => false
  }

  /** `Primary::new_attribute_ref`: both operands must already be primaries (otherwise the source panics). */
  function NewAttributeRef(lhs: Expression, rhs: Expression): (p: Primary)
    requires lhs.Primary? && rhs.Primary?
    ensures p.AttributeRef? && p.owner == lhs.primary && p.attribute == rhs.primary
  {
    AttributeRef(lhs.primary, rhs.primary)
  }

  /** Unary and binary constructions never coincide, and each keeps its operands. */
  lemma UnaryBinaryDistinct(a: Expression, op: L.Operator, b: Expression, c: Expression, op': L.Operator)
    ensures NewUnaryOp(a, op) != NewBinaryOp(c, op', b)
    ensures NewBinaryOp(a, op, b) == NewBinaryOp(c, op', b) ==> a == c && op == op'
  {
  }

  /** `is_number` holds exactly of literal atoms, including string and bytes literals. */
  lemma IsNumberExact(e: Expression)
    ensures IsNumber(e) <==> e.Primary? && e.primary.Atom? && e.primary.atom.Literal?
    ensures forall l :: IsNumber(Primary(Atom(Literal(l))))
    ensures !IsNumber(NewUnaryOp(e, L.Operator.Sub))
  {
  }

  /** An attribute reference rebuilt from its parts is the one the constructor made. */
  lemma AttributeRefOrder(lhs: Primary, rhs: Primary)
    ensures NewAttributeRef(Primary(lhs), Primary(rhs)) == AttributeRef(lhs, rhs)
    ensures lhs != rhs ==> NewAttributeRef(Primary(lhs), Primary(rhs)) != NewAttributeRef(Primary(rhs), Primary(lhs))
  {
  }
}
