/** The language writer a generator writes through: a table of operator templates with "{0}",
    "{1}" placeholders, and per-kind casing of value labels. */
module Writers {
  import opened Wrappers
  import opened Trees
  import opened Text

  /** How a writer renders the label of a value leaf of some kind. */
  datatype Casing = AsIs | UpperCase | LowerCase

  datatype LanguageWriter = LanguageWriter(
    operatorTemplate: map<TensorOp, string>,
    casing: map<ValueNodeType, Casing>)

  /** The template for an operator, if the writer has one. */
  function GetOperatorTemplate(w: LanguageWriter, op: TensorOp): (r: Option<string>)
    ensures r.Some? <==> op in w.operatorTemplate
    ensures r.Some? ==> r.value == w.operatorTemplate[op]
  {
    if op in w.operatorTemplate then Some(w.operatorTemplate[op]) else None
  }

  /** The operator's template with its placeholders filled by the operands, in order. */
  function WriteOperator(w: LanguageWriter, op: TensorOp, operands: seq<string>): string
    requires op in w.operatorTemplate
  {
    Substitute(w.operatorTemplate[op], operands)
  }

  /** The base writer's text for a value leaf: its label. */
  function BaseValueText(v: ValueNode): string
  {
    v.name
  }

  /** A value leaf's text: its label in the casing the writer asks for its kind. */
  function WriteValueText(w: LanguageWriter, v: ValueNode): (r: string)
    ensures |r| == |v.name|
    ensures v.kind !in w.casing ==> r == v.name
  {
    var c := if v.kind in w.casing then w.casing[v.kind] else AsIs;
    match c
    case AsIs => BaseValueText(v)
    case UpperCase => Upper(BaseValueText(v))
    case LowerCase => Lower(BaseValueText(v))
  }
}
