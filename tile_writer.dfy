/** The Tile (PlaidML) language writer: its operator template table and its casing of
    tensor and index-set labels. */
module TileWriting {
  import opened Wrappers
  import opened Trees
  import opened Text
  import opened Writers
  import opened Generation

  const AssignTemplate: string := "{0} = {1};"
  const IndexTemplate: string := "{0}[{1}]"
  const AddTemplate: string := "{0} + {1}"
  const MulTemplate: string := "{0} * {1}"
  const SubTemplate: string := "{0} - {1}"
  const DivTemplate: string := "{0} / {1}"

  const OperatorTemplate: map<TensorOp, string> := map[
    Assign := AssignTemplate,
    Index := IndexTemplate,
    Add := AddTemplate,
    Mul := MulTemplate,
    Sub := SubTemplate,
    Div := DivTemplate]

  /** Tensor labels are written upper case, index-set labels lower case, the rest as they are. */
  const Casings: map<ValueNodeType, Casing> := map[TENSOR := UpperCase, INDEXSET := LowerCase]

  const Writer: LanguageWriter := LanguageWriter(OperatorTemplate, Casings)

  /** The table covers exactly assignment, indexing and the four arithmetic operators. */
  lemma TemplateDomain(op: TensorOp)
    ensures GetOperatorTemplate(Writer, op).Some? <==> op in {Assign, Index, Add, Mul, Sub, Div}
  {
  }

  /** The text the Tile writer gives a value leaf, by kind. */
  lemma ValueTextCasing(v: ValueNode)
    ensures v.kind == TENSOR ==> WriteValueText(Writer, v) == Upper(v.name)
    ensures v.kind == INDEXSET ==> WriteValueText(Writer, v) == Lower(v.name)
    ensures v.kind !in {TENSOR, INDEXSET} ==> WriteValueText(Writer, v) == v.name
  {
  }

  /** Rewriting a label the writer has already cased gives the same text. */
  lemma ValueTextIdempotent(v: ValueNode)
    ensures WriteValueText(Writer, ValueNode(v.kind, WriteValueText(Writer, v))) == WriteValueText(Writer, v)
  {
    UpperIdempotent(v.name);
    LowerIdempotent(v.name);
  }

  /** The infix spelling of each binary arithmetic template. */
  function Infix(op: TensorOp): string
  {
    match op
    case Add => " + "
    case Mul => " * "
    case Sub => " - "
    case Div => " / "
    case _ => " = "
  }

  /** Each arithmetic operator writes its left operand, the operator, then its right operand. */
  lemma {:induction false} WriteArithmetic(op: TensorOp, a: string, b: string)
    requires op in {Add, Mul, Sub, Div}
    ensures WriteOperator(Writer, op, [a, b]) == a + Infix(op) + b
  {
    assert Writer.operatorTemplate[op] == "{0}" + Infix(op) + "{1}" + "";
    SubstituteBinary(Infix(op), "", a, b);
    assert a + Infix(op) + b + "" == a + Infix(op) + b;
  }

  /** The assignment template writes a Tile statement. */
  lemma {:induction false} WriteAssign(a: string, b: string)
    ensures WriteOperator(Writer, Assign, [a, b]) == a + " = " + b + ";"
  {
    assert Writer.operatorTemplate[Assign] == "{0}" + " = " + "{1}" + ";";
    SubstituteBinary(" = ", ";", a, b);
  }

  /** The index template writes a subscript. */
  lemma {:induction false} WriteIndex(a: string, b: string)
    ensures WriteOperator(Writer, Index, [a, b]) == a + "[" + b + "]"
  {
    assert Writer.operatorTemplate[Index] == "{0}" + "[" + "{1}" + "]";
    SubstituteBinary("[", "]", a, b);
  }

  /** The Tile generator's nested binary operators. */
  const NestedBinaryOperators: seq<TensorOp> := [Mul, Add, Sub, Div, Square]

  lemma TensorLeafText(a: string)
    ensures Render(Writer, NestedBinaryOperators, TensorLeaf(a)) == Ok(Upper(a))
  {
  }

  /** Under an arithmetic operator, an operand is bracketed exactly when it is itself a nested
      operator node. */
  lemma BracketRule(op: TensorOp, x: Node, xt: string)
    requires op in {Add, Mul, Sub, Div}
    ensures OperandText(NestedBinaryOperators, op, x, xt)
         == if x.OpNode? && x.op in {Mul, Add, Sub, Div, Square} then "(" + xt + ")" else xt
  {
  }

  /** An arithmetic node renders infix, its left operand first. */
  lemma {:induction false} RenderArithmetic(op: TensorOp, x: Node, y: Node, xt: string, yt: string)
    requires op in {Add, Mul, Sub, Div}
    requires Render(Writer, NestedBinaryOperators, x) == Ok(xt)
    requires Render(Writer, NestedBinaryOperators, y) == Ok(yt)
    ensures Render(Writer, NestedBinaryOperators, Binary(op, x, y))
         == Ok(OperandText(NestedBinaryOperators, op, x, xt) + Infix(op) + OperandText(NestedBinaryOperators, op, y, yt))
  {
    var ox := OperandText(NestedBinaryOperators, op, x, xt);
    var oy := OperandText(NestedBinaryOperators, op, y, yt);
    RenderBinary(Writer, NestedBinaryOperators, op, x, y);
    WriteArithmetic(op, ox, oy);
  }

  /** A subscript renders as "x[y]", never bracketing its operands. */
  lemma {:induction false} RenderSubscriptOf(x: Node, y: Node, xt: string, yt: string)
    requires Render(Writer, NestedBinaryOperators, x) == Ok(xt)
    requires Render(Writer, NestedBinaryOperators, y) == Ok(yt)
    ensures Render(Writer, NestedBinaryOperators, Binary(Index, x, y)) == Ok(xt + "[" + yt + "]")
  {
    RenderBinary(Writer, NestedBinaryOperators, Index, x, y);
    assert Index !in NestedBinaryOperators;
    WriteIndex(xt, yt);
  }

  /** With the Tile writer, a * b + c renders as "(A * B) + C". */
  lemma {:induction false} RenderBracketsNested(a: string, b: string, c: string)
    ensures Render(Writer, NestedBinaryOperators,
                   Binary(Add, Binary(Mul, TensorLeaf(a), TensorLeaf(b)), TensorLeaf(c)))
         == Ok("(" + (Upper(a) + " * " + Upper(b)) + ")" + " + " + Upper(c))
  {
    TensorLeafText(a);
    TensorLeafText(b);
    TensorLeafText(c);
    RenderArithmetic(Mul, TensorLeaf(a), TensorLeaf(b), Upper(a), Upper(b));
    BracketRule(Add, Binary(Mul, TensorLeaf(a), TensorLeaf(b)), Upper(a) + " * " + Upper(b));
    RenderArithmetic(Add, Binary(Mul, TensorLeaf(a), TensorLeaf(b)), TensorLeaf(c), Upper(a) + " * " + Upper(b), Upper(c));
  }
}
