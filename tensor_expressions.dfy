/** Tensor expressions: a host expression with the tensor it defines (if any) and its shape.
    The arithmetic builders make a new expression node over the operands and carry the left
    operand's shape. */
module TensorExpressions {
  import opened Wrappers
  import opened HostExpressions
  import opened ExpressionExtensions

  /** One axis of a shape: its length and its stride. */
  datatype Dimension = Dimension(length: int, stride: int)

  /** A tensor expression: the host expression, the tensor it is the right-hand side of, and
      its shape. */
  datatype TensorExpression = TensorExpression(
    linqExpression: Expr,
    lhsTensor: Option<TermRef>,
    shape: seq<Dimension>)

  /** The bare constructor: no left-hand tensor and an empty shape. */
  function FromExpression(e: Expr): (r: TensorExpression)
    ensures r.linqExpression == e && r.lhsTensor == None && r.shape == []
  {
    TensorExpression(e, None, [])
  }

  /** The constructors that take a left-hand tensor, a shape, or both. */
  function Construct(e: Expr, lhs: Option<TermRef>, shape: seq<Dimension>): (r: TensorExpression)
    ensures r.linqExpression == e && r.lhsTensor == lhs && r.shape == shape
  {
    TensorExpression(e, lhs, shape)
  }

  /** The lengths of the axes. */
  function Dimensions(te: TensorExpression): (r: seq<int>)
    ensures |r| == |te.shape|
    ensures forall k :: 0 <= k < |r| ==> r[k] == te.shape[k].length
  {
    if |te.shape| > 0 then seq(|te.shape|, k requires 0 <= k < |te.shape| => te.shape[k].length) else []
  }

  function Rank(te: TensorExpression): nat
  {
    |Dimensions(te)|
  }

  /** The rank is the number of axes, and there are no dimensions exactly when the shape is
      empty. */
  lemma RankIsAxes(te: TensorExpression)
    ensures Rank(te) == |te.shape|
    ensures Dimensions(te) == [] <==> te.shape == []
  {
  }

  /** The failure of an axis lookup outside the shape. */
  datatype ShapeError = AxisOutOfRange

  /** The axis at a position. */
  function AxisAt(te: TensorExpression, k: int): (r: Result<Dimension, ShapeError>)
    ensures r.Ok? <==> 0 <= k < |te.shape|
    ensures r.Ok? ==> r.value == te.shape[k]
  {
    if 0 <= k < |te.shape| then Ok(te.shape[k]) else Err(AxisOutOfRange)
  }

  /** The tensors the expression holds. */
  function Tensors(te: TensorExpression): Result<seq<TermRef>, ExtensionError>
  {
    GetConstants(te.linqExpression, TensorTypeName)
  }

  /** The tensors without a definition, in order. */
  function Undefined(ts: seq<TermRef>, defined: set<TermRef>): seq<TermRef>
  {
    if ts == [] then []
    else Undefined(ts[..|ts| - 1], defined) + (if ts[|ts| - 1] in defined then [] else [ts[|ts| - 1]])
  }

  /** The input variables: the tensors of the expression that have no definition. */
  function InputVariables(te: TensorExpression, defined: set<TermRef>): Result<seq<TermRef>, ExtensionError>
  {
    var ts :- Tensors(te);
    Ok(Undefined(ts, defined))
  }

  /** Filtering keeps exactly the undefined tensors and keeps their order: the result is the
      tensors with the defined ones removed. */
  lemma {:induction false} UndefinedSpec(ts: seq<TermRef>, defined: set<TermRef>, x: TermRef)
    ensures x in Undefined(ts, defined) <==> x in ts && x !in defined
    ensures |Undefined(ts, defined)| <= |ts|
    ensures (forall y :: y in ts ==> y !in defined) ==> Undefined(ts, defined) == ts
  {
    if ts != [] {
      var front := ts[..|ts| - 1];
      UndefinedSpec(front, defined, x);
      assert ts == front + [ts[|ts| - 1]];
      assert forall y :: y in front ==> y in ts;
    }
  }

  /** The input variables fail exactly when the tensors do, and are the tensors that have no
      definition. */
  lemma InputVariablesSpec(te: TensorExpression, defined: set<TermRef>, x: TermRef)
    ensures InputVariables(te, defined).Ok? <==> Tensors(te).Ok?
    ensures InputVariables(te, defined).Ok? ==>
      (x in InputVariables(te, defined).value <==> x in Tensors(te).value && x !in defined)
  {
    if Tensors(te).Ok? {
      UndefinedSpec(Tensors(te).value, defined, x);
    }
  }

  /** The indices the expression's parameters name. */
  function IndexParameters(te: TensorExpression, registry: map<string, RegisteredTerm>): seq<TermRef>
  {
    GetParameters(te.linqExpression, registry, IndexTypeName)
  }

  /** A tensor variable: a constant whose type is Tensor or derives directly from it. */
  predicate IsTensorVariable(te: TensorExpression)
  {
    te.linqExpression.ConstantExpr?
    && (te.linqExpression.ty.name == TensorTypeName || te.linqExpression.ty.baseName == TensorTypeName)
  }

  /** An undefined tensor is a tensor variable; a constant of a type derived from Tensor is a
      tensor variable but not an undefined tensor. */
  lemma TensorVariableKinds(te: TensorExpression, derived: string, x: TermRef)
    ensures IsUndefinedTensor(te.linqExpression) ==> IsTensorVariable(te)
    ensures derived != TensorTypeName ==>
      var c := FromExpression(ConstantExpr(HostType(derived, TensorTypeName, None), TermValue(x)));
      IsTensorVariable(c) && !IsUndefinedTensor(c.linqExpression)
  {
  }

  /** The node types of the arithmetic builders. */
  predicate IsBinaryBuilder(op: ExpressionType)
  {
    op in {ExpressionType.Add, Subtract, Multiply, Divide}
  }

  /** Negation: a negation node over the expression, with its shape. */
  function Negate(te: TensorExpression): (r: TensorExpression)
    ensures r.shape == te.shape && r.lhsTensor == None
    ensures r.linqExpression.OperationExpr? && r.linqExpression.nodeType == ExpressionType.Negate
    ensures r.linqExpression.operands == [te.linqExpression]
  {
    Construct(OperationExpr(ExpressionType.Negate, te.linqExpression.ty, [te.linqExpression]), None, te.shape)
  }

  /** Addition, subtraction, multiplication and division, which the operators + - * / are: a
      node over the two expressions in order, typed by the dummy operator method that returns a
      tensor expression, with the left operand's shape. */
  function Binary(op: ExpressionType, left: TensorExpression, right: TensorExpression): (r: TensorExpression)
    requires IsBinaryBuilder(op)
    ensures r.shape == left.shape && r.lhsTensor == None
    ensures r.linqExpression.OperationExpr? && r.linqExpression.nodeType == op
    ensures r.linqExpression.operands == [left.linqExpression, right.linqExpression]
    ensures r.linqExpression.ty == TensorExpressionType
  {
    Construct(OperationExpr(op, TensorExpressionType, [left.linqExpression, right.linqExpression]), None, left.shape)
  }

  /** The tensors of an arithmetic result are found exactly when both operands' are, and are
      then exactly the tensors of the two operands. */
  lemma BinaryTensors(op: ExpressionType, left: TensorExpression, right: TensorExpression, x: TermRef)
    requires IsBinaryBuilder(op)
    ensures Tensors(Binary(op, left, right)).Ok? <==> Tensors(left).Ok? && Tensors(right).Ok?
    ensures Tensors(Binary(op, left, right)).Ok? ==>
      (x in Tensors(Binary(op, left, right)).value <==> x in Tensors(left).value || x in Tensors(right).value)
  {
    var a, b := left.linqExpression, right.linqExpression;
    var e := Binary(op, left, right).linqExpression;
    NodesOfPair(a, b);
    assert Nodes(e) == [e] + (Nodes(a) + Nodes(b));
    DirectValuesOfNode(e, a, b);
    ArrayFirstsOfNode(e, a, b);
    if Tensors(Binary(op, left, right)).Ok? {
      var da, db := DirectValues(Nodes(a), TensorTypeName).value, DirectValues(Nodes(b), TensorTypeName).value;
      var fa, fb := ArrayFirsts(Nodes(a), TensorTypeName).value, ArrayFirsts(Nodes(b), TensorTypeName).value;
      DistinctSpec(da + db);
      DistinctSpec(fa + fb);
      DistinctSpec(da);
      DistinctSpec(db);
      DistinctSpec(fa);
      DistinctSpec(fb);
    }
  }

  /** The direct tensor values below an operator node over two operands are the first
      operand's then the second's. */
  lemma DirectValuesOfNode(e: Expr, a: Expr, b: Expr)
    requires e.OperationExpr? && Nodes(e) == [e] + (Nodes(a) + Nodes(b))
    ensures DirectValues(Nodes(e), TensorTypeName).Ok? <==>
      DirectValues(Nodes(a), TensorTypeName).Ok? && DirectValues(Nodes(b), TensorTypeName).Ok?
    ensures DirectValues(Nodes(e), TensorTypeName).Ok? ==>
      DirectValues(Nodes(e), TensorTypeName).value ==
      DirectValues(Nodes(a), TensorTypeName).value + DirectValues(Nodes(b), TensorTypeName).value
  {
    DirectValuesAppend([e], Nodes(a) + Nodes(b), TensorTypeName);
    DirectValuesAppend(Nodes(a), Nodes(b), TensorTypeName);
    assert [e][..0] == [];
    assert DirectValues([e], TensorTypeName) == Ok([]);
  }

  /** The tensor arrays' first elements below an operator node over two operands are the first
      operand's then the second's. */
  lemma ArrayFirstsOfNode(e: Expr, a: Expr, b: Expr)
    requires e.OperationExpr? && Nodes(e) == [e] + (Nodes(a) + Nodes(b))
    ensures ArrayFirsts(Nodes(e), TensorTypeName).Ok? <==>
      ArrayFirsts(Nodes(a), TensorTypeName).Ok? && ArrayFirsts(Nodes(b), TensorTypeName).Ok?
    ensures ArrayFirsts(Nodes(e), TensorTypeName).Ok? ==>
      ArrayFirsts(Nodes(e), TensorTypeName).value ==
      ArrayFirsts(Nodes(a), TensorTypeName).value + ArrayFirsts(Nodes(b), TensorTypeName).value
  {
    ArrayFirstsAppend([e], Nodes(a) + Nodes(b), TensorTypeName);
    ArrayFirstsAppend(Nodes(a), Nodes(b), TensorTypeName);
    assert [e][..0] == [];
    assert ArrayFirsts([e], TensorTypeName) == Ok([]);
  }

  /** How the tree of an expression is built: by the plain visitor, or by the visitor that
      knows the left-hand tensor. */
  datatype TreeBuilder =
    | ExpressionVisitor(e: Expr)
    | LhsExpressionVisitor(e: Expr, lhs: TermRef)

  /** The tree is built with the left-hand tensor exactly when the expression has one. */
  function ToTree(te: TensorExpression): (r: TreeBuilder)
    ensures r.LhsExpressionVisitor? <==> te.lhsTensor.Some?
    ensures r.e == te.linqExpression
    ensures r.LhsExpressionVisitor? ==> r.lhs == te.lhsTensor.value
  {
    match te.lhsTensor
    case None => ExpressionVisitor(te.linqExpression)
    case Some(t) => LhsExpressionVisitor(te.linqExpression, t)
  }
}
