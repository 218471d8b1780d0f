/** The expression tree the generators walk: operator nodes with up to two children and
    labelled value leaves, plus the tree-level views (output node, input variables and the
    parents of the tree's index-set nodes) the tile generator reads. */
module Trees {
  import opened Wrappers

  /** The tensor operators that can label an operator node. */
  datatype TensorOp =
    | NoOp | Assign | Index | Add | Sub | Mul | Div | Pow
    | Sum | Square | Sqrt | ElementWiseAssign

  /** What a value leaf stands for. */
  datatype ValueNodeType = TENSOR | INDEXSET | INDEX | SCALAR | CONSTANT

  /** A value leaf: its kind and its label. */
  datatype ValueNode = ValueNode(kind: ValueNodeType, name: string)

  /** A tree node: an operator with an optional left and right child, or a value leaf. */
  datatype Node =
    | OpNode(op: TensorOp, left: Option<Node>, right: Option<Node>)
    | Leaf(value: ValueNode)

  /** The tree as the generators see it. indexSetParentNames holds, for each index-set node of
      the tree, the label of the tensor that index set belongs to. */
  datatype ExpressionTree = ExpressionTree(
    root: Node,
    outputNode: ValueNode,
    inputVariableNodes: seq<ValueNode>,
    indexSetParentNames: seq<string>)

  /** The number of nodes in a subtree. */
  function Size(n: Node): (r: nat)
    ensures r >= 1
  {
    match n
    case Leaf(_) => 1
    case OpNode(_, l, r) => 1 + OptSize(l) + OptSize(r)
  }

  function OptSize(o: Option<Node>): nat
  {
    match o
    case None => 0
    case Some(x) => Size(x)
  }

  /** Every operator appearing in a subtree. */
  function Ops(n: Node): set<TensorOp>
  {
    match n
    case Leaf(_) => {}
    case OpNode(op, l, r) =>
      {op}
      + (match l case None => {} case Some(x) => Ops(x))
      + (match r case None => {} case Some(y) => Ops(y))
  }

  /** The number of operator nodes labelled op in a subtree. */
  function CountOp(op: TensorOp, n: Node): nat
  {
    match n
    case Leaf(_) => 0
    case OpNode(o, l, r) =>
      (if o == op then 1 else 0)
      + (match l case None => 0 case Some(x) => CountOp(op, x))
      + (match r case None => 0 case Some(y) => CountOp(op, y))
  }

  function IsOpNode(o: Option<Node>): bool
  {
    o.Some? && o.value.OpNode?
  }

  /** An operator that does not occur in a subtree labels none of its nodes. */
  lemma {:induction false} CountOpAbsent(op: TensorOp, n: Node)
    requires op !in Ops(n)
    ensures CountOp(op, n) == 0
  {
    match n
    case Leaf(_) =>
    case OpNode(_, l, r) =>
      if l.Some? { CountOpAbsent(op, l.value); }
      if r.Some? { CountOpAbsent(op, r.value); }
  }

  /** Convenience builders for binary operator nodes and leaves. */
  function Binary(op: TensorOp, l: Node, r: Node): Node
  {
    OpNode(op, Some(l), Some(r))
  }

  function TensorLeaf(name: string): Node
  {
    Leaf(ValueNode(TENSOR, name))
  }

  function IndexSetLeaf(name: string): Node
  {
    Leaf(ValueNode(INDEXSET, name))
  }
}
