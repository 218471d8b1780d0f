/** The host language's expression graphs (System.Linq.Expressions) as far as the notation layer
    builds them and the expression extensions inspect them: constants, parameters, method calls
    and operator nodes, each with its host type. */
module HostExpressions {
  import opened Wrappers

  /** The node types of host expressions the model tells apart. */
  datatype ExpressionType =
    | Add | Subtract | Multiply | Divide | Modulo | Power | Negate
    | Index | ArrayIndex | Constant | Parameter | Call | Conditional | Lambda

  /** A host type: its name, the name of its direct base type and, for an array type, the name
      of its element type. */
  datatype HostType = HostType(name: string, baseName: string, element: Option<string>)

  /** The identity of a notation object (a Term) held in an expression graph: two references are
      the same object exactly when their identities are equal. */
  datatype TermRef = TermRef(id: string)

  /** The value of a constant node: one notation object, an integer, or an array of notation
      objects flattened in element order. */
  datatype ConstantValue =
    | TermValue(term: TermRef)
    | IntValue(i: int)
    | ArrayValue(items: seq<TermRef>)

  /** A host expression. Operator nodes carry their node type and operands in order. */
  datatype Expr =
    | ConstantExpr(ty: HostType, value: ConstantValue)
    | ParameterExpr(ty: HostType, name: string)
    | CallExpr(ty: HostType, methodName: string, arguments: seq<Expr>)
    | OperationExpr(nodeType: ExpressionType, ty: HostType, operands: seq<Expr>)

  const TermTypeName: string := "Term"
  const TensorTypeName: string := "Tensor"
  const IndexTypeName: string := "Index"
  const ArrayTypeName: string := "Array"

  const TensorType: HostType := HostType(TensorTypeName, TermTypeName, None)
  const IndexType: HostType := HostType(IndexTypeName, TermTypeName, None)
  const IntType: HostType := HostType("Int32", "ValueType", None)
  const TensorExpressionType: HostType := HostType("TensorExpression", TermTypeName, None)

  /** The commas of a rank-dimensional array type's name. */
  function Commas(n: nat): string
  {
    if n == 0 then "" else Commas(n - 1) + ","
  }

  /** The type of a rank-dimensional array of elem: a type derived from Array. */
  function ArrayOf(elem: string, rank: nat): (r: HostType)
    ensures r.baseName == ArrayTypeName && r.element == Some(elem)
  {
    HostType(elem + "[" + Commas(if rank == 0 then 0 else rank - 1) + "]", ArrayTypeName, Some(elem))
  }

  /** The node type of an expression. */
  function NodeType(e: Expr): ExpressionType
  {
    match e
    case ConstantExpr(_, _) => Constant
    case ParameterExpr(_, _) => Parameter
    case CallExpr(_, _, _) => Call
    case OperationExpr(t, _, _) => t
  }

  /** The expression and all its descendants, each node before its children and the children
      in order. */
  function Nodes(e: Expr): (r: seq<Expr>)
    ensures |r| >= 1 && r[0] == e
    decreases e, 1
  {
    match e
    case CallExpr(_, _, args) => [e] + NodesOf(args)
    case OperationExpr(_, _, xs) => [e] + NodesOf(xs)
    case _ => [e]
  }

  /** The nodes of each expression of a list in turn. */
  function NodesOf(es: seq<Expr>): seq<Expr>
    decreases es, 0
  {
    if es == [] then [] else NodesOf(es[..|es| - 1]) + Nodes(es[|es| - 1])
  }

  /** A node list of two expressions is the first one's nodes and then the second one's. */
  lemma NodesOfPair(a: Expr, b: Expr)
    ensures NodesOf([a, b]) == Nodes(a) + Nodes(b)
  {
    assert [a, b][..1] == [a];
    NodesOfSingle(a);
    assert NodesOf([a, b]) == NodesOf([a]) + Nodes(b);
  }

  /** A node list of one expression is its nodes. */
  lemma NodesOfSingle(a: Expr)
    ensures NodesOf([a]) == Nodes(a)
  {
    assert [a][..0] == [];
  }
}
