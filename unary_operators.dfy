/** Element-wise operators: a function from tensor expressions to tensor expressions, applied
    by indexing, composed by indexing with another operator or with the pipe, and combined
    pointwise with + - * /. */
module UnaryOperators {
  import opened Wrappers
  import opened HostExpressions
  import opened TensorExpressions

  /** An operator of one tensor expression. */
  datatype UnaryOperator = UnaryOperator(operation: TensorExpression -> TensorExpression)

  /** An operator of two tensor expressions; its class is not part of this model beyond its
      application. */
  datatype BinaryOperator = BinaryOperator(operation: (TensorExpression, TensorExpression) -> TensorExpression)

  /** Applying an operator to an expression. */
  function Apply(u: UnaryOperator, e: TensorExpression): TensorExpression
  {
    u.operation(e)
  }

  function ApplyBinary(b: BinaryOperator, l: TensorExpression, r: TensorExpression): TensorExpression
  {
    b.operation(l, r)
  }

  /** Indexing an operator with another: the outer operator applied to the inner one's result. */
  function Of(outer: UnaryOperator, inner: UnaryOperator): UnaryOperator
  {
    UnaryOperator(e => Apply(outer, Apply(inner, e)))
  }

  /** Indexing an operator with a binary operator: the operator applied to its result. */
  function OfBinary(outer: UnaryOperator, inner: BinaryOperator): BinaryOperator
  {
    BinaryOperator((l, r) => Apply(outer, ApplyBinary(inner, l, r)))
  }

  /** The pipe: the left operator first, then the right one. */
  function Pipe(left: UnaryOperator, right: UnaryOperator): UnaryOperator
  {
    UnaryOperator(e => Apply(right, Apply(left, e)))
  }

  /** The operator that returns its argument. */
  function Identity(): UnaryOperator
  {
    UnaryOperator(e => e)
  }

  /** The operator that returns its argument is neutral for the pipe on either side. */
  lemma PipeIdentity(u: UnaryOperator, e: TensorExpression)
    ensures Apply(Pipe(Identity(), u), e) == Apply(u, e)
    ensures Apply(Pipe(u, Identity()), e) == Apply(u, e)
  {
  }

  /** Indexing is the pipe read backwards: u[v] runs v first. */
  lemma OfIsReversedPipe(outer: UnaryOperator, inner: UnaryOperator, e: TensorExpression)
    ensures Apply(Of(outer, inner), e) == Apply(Pipe(inner, outer), e)
  {
  }

  /** The pipe is associative on every argument. */
  lemma PipeAssociative(a: UnaryOperator, b: UnaryOperator, c: UnaryOperator, e: TensorExpression)
    ensures Apply(Pipe(Pipe(a, b), c), e) == Apply(Pipe(a, Pipe(b, c)), e)
  {
  }

  /** Indexing a binary operator with a composed operator is indexing it with the inner one,
      then with the outer one: u[v][b] and u[v[b]] agree on every pair of arguments. */
  lemma OfBinaryComposes(outer: UnaryOperator, inner: UnaryOperator, b: BinaryOperator, l: TensorExpression, r: TensorExpression)
    ensures ApplyBinary(OfBinary(Of(outer, inner), b), l, r) == ApplyBinary(OfBinary(outer, OfBinary(inner, b)), l, r)
  {
  }

  /** Indexing a binary operator with the operator that returns its argument leaves it as it
      was on every pair of arguments. */
  lemma OfBinaryIdentity(b: BinaryOperator, l: TensorExpression, r: TensorExpression)
    ensures ApplyBinary(OfBinary(Identity(), b), l, r) == ApplyBinary(b, l, r)
  {
  }

  /** The node types of the pointwise combinations. */
  predicate IsPointwise(op: ExpressionType)
  {
    op in {ExpressionType.Add, Subtract, Multiply, Divide}
  }

  /** A node of the given type over both operators' results on one argument, wrapped by the
      bare tensor expression constructor. */
  function Combine(op: ExpressionType, left: UnaryOperator, right: UnaryOperator, e: TensorExpression): TensorExpression
  {
    FromExpression(OperationExpr(op, TensorExpressionType, [Apply(left, e).linqExpression, Apply(right, e).linqExpression]))
  }

  /** The pointwise combination. */
  function Pointwise(op: ExpressionType, left: UnaryOperator, right: UnaryOperator): UnaryOperator
    requires IsPointwise(op)
  {
    UnaryOperator(e => Combine(op, left, right, e))
  }

  /** A pointwise combination applies both operators to the same argument and combines their
      results in order; unlike the tensor expression builders it carries no shape and no
      left-hand tensor. */
  lemma PointwiseResult(op: ExpressionType, left: UnaryOperator, right: UnaryOperator, e: TensorExpression)
    requires IsPointwise(op)
    ensures Apply(Pointwise(op, left, right), e).linqExpression.OperationExpr?
    ensures Apply(Pointwise(op, left, right), e).linqExpression.nodeType == op
    ensures Apply(Pointwise(op, left, right), e).linqExpression.operands ==
      [Apply(left, e).linqExpression, Apply(right, e).linqExpression]
    ensures Apply(Pointwise(op, left, right), e).shape == []
    ensures Apply(Pointwise(op, left, right), e).lhsTensor == None
  {
    assert Apply(Pointwise(op, left, right), e) == Combine(op, left, right, e);
  }

  /** A pointwise combination builds the same node as the builder on the two results, but
      drops the shape the builder would keep. */
  lemma PointwiseAgainstBuilder(op: ExpressionType, left: UnaryOperator, right: UnaryOperator, e: TensorExpression)
    requires IsPointwise(op)
    ensures Apply(Pointwise(op, left, right), e).linqExpression ==
      Binary(op, Apply(left, e), Apply(right, e)).linqExpression
    ensures Binary(op, Apply(left, e), Apply(right, e)).shape == Apply(left, e).shape
    ensures Apply(Pointwise(op, left, right), e).shape == []
  {
    assert Apply(Pointwise(op, left, right), e) == Combine(op, left, right, e);
  }

  /** A pointwise combination distributes over a pipe in front of it. */
  lemma PointwiseAfterPipe(op: ExpressionType, pre: UnaryOperator, left: UnaryOperator, right: UnaryOperator, e: TensorExpression)
    requires IsPointwise(op)
    ensures Apply(Pipe(pre, Pointwise(op, left, right)), e) ==
      Apply(Pointwise(op, Pipe(pre, left), Pipe(pre, right)), e)
  {
  }
}
