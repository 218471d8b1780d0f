/** The generic language generator: a tree visitor that renders every subtree to one text
    fragment on the context stack, bracketing nested binary operands, and that succeeds only
    when exactly one fragment is left for the whole tree. */
module Generation {
  import opened Wrappers
  import opened Trees
  import opened Text
  import opened Writers

  /** Every way generation can fail. The tile generator's failures are listed here as well so
      that both generators report through one type. */
  datatype GenError =
    | NoTemplate(op: TensorOp)       // the writer has no template for an operator
    | StackEmpty                     // Pop or Peek on an empty stack
    | ContextCount(count: nat)       // the tree did not leave exactly one fragment
    | IndexLhsNotTensor              // "Index operation lhs is not a tensor"
    | IndexLhsUndetermined           // "Could not determine the tensor being indexed"
    | NullReference                  // dereferencing a child that is not a value node
    | DuplicateKey(node: ValueNode)  // adding a tree node twice to a dictionary
    | KeyNotFound(node: ValueNode)   // reading a tree node missing from a dictionary

  /** The visitor's context: the stack of rendered fragments, and the stack of templates of
      the operators whose visit is in progress (each opened by Context.Internal and closed when
      that scope is disposed). */
  datatype Context = Context(fragments: seq<string>, frames: seq<string>) {
    function Count(): nat
    {
      |fragments|
    }

    function Push(s: string): (c: Context)
      ensures c.Count() == Count() + 1 && c.frames == frames
    {
      Context(fragments + [s], frames)
    }

    /** The top fragment and the context without it. */
    function Pop(): (r: Result<(string, Context), GenError>)
      ensures r.Err? <==> Count() == 0
      ensures r.Ok? ==> r.value.1.Push(r.value.0) == this
    {
      if |fragments| == 0 then Err(StackEmpty)
      else Ok((fragments[|fragments| - 1], Context(fragments[..|fragments| - 1], frames)))
    }

    /** The template of the innermost operator whose visit is in progress. */
    function Peek(): (r: Result<string, GenError>)
      ensures r.Err? <==> frames == []
      ensures r.Ok? ==> r.value == frames[|frames| - 1]
    {
      if |frames| == 0 then Err(StackEmpty) else Ok(frames[|frames| - 1])
    }

    /** Opens the scope of an operator with the given template. */
    function Internal(template: string): (c: Context)
      ensures c.fragments == fragments && c.Peek() == Ok(template)
    {
      Context(fragments, frames + [template])
    }

    /** Popping a pushed fragment gives it back, and the context before the push. */
    lemma PopPush(s: string)
      ensures Push(s).Pop() == Ok((s, this))
    {
      assert (fragments + [s])[..|fragments|] == fragments;
    }

    /** Closing a scope just opened restores the context. */
    lemma DisposeInternal(t: string)
      ensures Internal(t).Dispose() == this
    {
      assert (frames + [t])[..|frames|] == frames;
    }

    /** Closes the innermost open scope. */
    function Dispose(): (c: Context)
      ensures c.fragments == fragments
    {
      Context(fragments, if |frames| == 0 then [] else frames[..|frames| - 1])
    }
  }

  const EmptyContext: Context := Context([], [])

  /** An operand is bracketed when it is itself an operator node and both it and its parent
      are nested binary operators. */
  predicate Bracketed(nested: seq<TensorOp>, parent: TensorOp, child: Node)
  {
    child.OpNode? && parent in nested && child.op in nested
  }

  function OperandText(nested: seq<TensorOp>, parent: TensorOp, child: Node, text: string): string
  {
    if Bracketed(nested, parent, child) then "(" + text + ")" else text
  }

  /** The operand list contributed by one optional child: nothing when the child is absent,
      otherwise its (bracketed) text; failures pass through. */
  function ChildOperand(nested: seq<TensorOp>, parent: TensorOp, child: Option<Node>,
                        rendered: Result<string, GenError>): Result<seq<string>, GenError>
  {
    match child
    case None => Ok([])
    case Some(c) =>
      match rendered
      case Err(e) => Err(e)
      case Ok(s) => Ok([OperandText(nested, parent, c, s)])
  }

  /** Reference semantics of the generator: the one fragment a subtree leaves on the context.
      A leaf is its value text; an operator node is its template filled with its children's
      texts, left before right. The template is looked up before the children are visited. */
  function Render(w: LanguageWriter, nested: seq<TensorOp>, n: Node): Result<string, GenError>
  {
    match n
    case Leaf(v) => Ok(WriteValueText(w, v))
    case OpNode(op, l, r) =>
      if op !in w.operatorTemplate then Err(NoTemplate(op))
      else
        var ls :- ChildOperand(nested, op, l, match l case None => Ok("") case Some(x) => Render(w, nested, x));
        var rs :- ChildOperand(nested, op, r, match r case None => Ok("") case Some(y) => Render(w, nested, y));
        Ok(WriteOperator(w, op, ls + rs))
  }

  /** Generation of a tree fails exactly when some operator in it has no template. */
  lemma {:induction false} RenderOkIffTemplated(w: LanguageWriter, nested: seq<TensorOp>, n: Node)
    ensures Render(w, nested, n).Ok? <==> Ops(n) <= w.operatorTemplate.Keys
    ensures Render(w, nested, n).Err? ==> Render(w, nested, n).error.NoTemplate?
  {
    match n
    case Leaf(_) =>
    case OpNode(op, l, r) =>
      if l.Some? { RenderOkIffTemplated(w, nested, l.value); }
      if r.Some? { RenderOkIffTemplated(w, nested, r.value); }
  }

  /** A binary operator node whose children both render fills its template with their
      (bracketed) texts, left operand first. */
  lemma RenderBinary(w: LanguageWriter, nested: seq<TensorOp>, op: TensorOp, l: Node, r: Node)
    requires op in w.operatorTemplate
    requires Render(w, nested, l).Ok? && Render(w, nested, r).Ok?
    ensures Render(w, nested, Binary(op, l, r))
         == Ok(WriteOperator(w, op, [OperandText(nested, op, l, Render(w, nested, l).value),
                                     OperandText(nested, op, r, Render(w, nested, r).value)]))
  {
    var lt := Render(w, nested, l).value;
    var rt := Render(w, nested, r).value;
    assert ChildOperand(nested, op, Some(l), Render(w, nested, l)) == Ok([OperandText(nested, op, l, lt)]);
    assert ChildOperand(nested, op, Some(r), Render(w, nested, r)) == Ok([OperandText(nested, op, r, rt)]);
    assert [OperandText(nested, op, l, lt)] + [OperandText(nested, op, r, rt)]
        == [OperandText(nested, op, l, lt), OperandText(nested, op, r, rt)];
  }

  /** Whether the innermost operator in progress (the top of `frames`) has the template of
      op. Peeking with no operator in progress, or asking for an operator without a template,
      fails. */
  function IsOpStart(w: LanguageWriter, frames: seq<string>, op: TensorOp): (r: Result<bool, GenError>)
    ensures r.Ok? <==> frames != [] && op in w.operatorTemplate
    ensures r.Ok? ==> (r.value <==> frames[|frames| - 1] == w.operatorTemplate[op])
    ensures frames == [] ==> r == Err(StackEmpty)
    ensures r.Err? ==> r.error == StackEmpty || r.error == NoTemplate(op)
  {
    var top :- Context([], frames).Peek();
    var t :- if op in w.operatorTemplate then Ok(w.operatorTemplate[op]) else Err(NoTemplate(op));
    Ok(top == t)
  }

  /** The generated text: the fragment on top of the context, if any. */
  function TopText(c: Context): (r: Option<string>)
    ensures r.Some? <==> c.Count() > 0
    ensures c.Count() == 1 ==> r == Some(c.fragments[0])
  {
    if c.Count() == 0 then None else Some(c.fragments[c.Count() - 1])
  }

  /** The base visit's operand collection: pop the right child's text (if there is a right
      child), then the left child's, bracketing each as needed; the operands come out left
      first. */
  function PopOperands(nested: seq<TensorOp>, on: Node, c: Context): Result<(seq<string>, Context), GenError>
    requires on.OpNode?
  {
    var afterRight :-
      if on.right.Some? then
        var p :- c.Pop();
        Ok(([OperandText(nested, on.op, on.right.value, p.0)], p.1))
      else Ok(([], c));
    var afterLeft :-
      if on.left.Some? then
        var p :- afterRight.1.Pop();
        Ok(([OperandText(nested, on.op, on.left.value, p.0)], p.1))
      else Ok(([], afterRight.1));
    Ok((afterLeft.0 + afterRight.0, afterLeft.1))
  }

  /** When both children's texts are on top of the context, the operands are those texts,
      left first, and the context is restored to what it was before the children's visits. */
  lemma PopOperandsBinary(nested: seq<TensorOp>, on: Node, c: Context, a: string, b: string)
    requires on.OpNode? && on.left.Some? && on.right.Some?
    ensures PopOperands(nested, on, c.Push(a).Push(b))
         == Ok(([OperandText(nested, on.op, on.left.value, a), OperandText(nested, on.op, on.right.value, b)], c))
  {
    c.Push(a).PopPush(b);
    c.PopPush(a);
    var x := OperandText(nested, on.op, on.left.value, a);
    var y := OperandText(nested, on.op, on.right.value, b);
    assert [x] + [y] == [x, y];
  }

  /** The context after visiting a subtree whose reference rendering is `rendered`: one more
      fragment, holding that rendering, and the open scopes as they were; or the failure. */
  ghost predicate Pushed(before: Context, after: Context, r: Outcome<GenError>,
                         rendered: Result<string, GenError>)
  {
    match rendered
    case Ok(s) => r == Pass && after == before.Push(s)
    case Err(e) => r == Fail(e)
  }

  class LanguageGenerator {
    const writer: LanguageWriter
    const nestedBinaryOperators: seq<TensorOp>
    var context: Context
    var success: bool

    constructor (writer: LanguageWriter, nestedBinaryOperators: seq<TensorOp>)
      ensures this.writer == writer && this.nestedBinaryOperators == nestedBinaryOperators
      ensures context == EmptyContext && !success
    {
      this.writer := writer;
      this.nestedBinaryOperators := nestedBinaryOperators;
      context := EmptyContext;
      success := false;
    }

    function Text(): (r: Option<string>)
      reads this
      ensures r == TopText(context)
    {
      TopText(context)
    }

    function ContextIsOpStart(op: TensorOp): (r: Result<bool, GenError>)
      reads this
      ensures r == IsOpStart(writer, context.frames, op)
    {
      IsOpStart(writer, context.frames, op)
    }

    method VisitLeaf(v: ValueNode)
      modifies this
      ensures context == old(context).Push(WriteValueText(writer, v))
      ensures success == old(success)
    {
      context := context.Push(WriteValueText(writer, v));
    }

    method Visit(n: Node) returns (r: Outcome<GenError>)
      modifies this
      ensures success == old(success)
      ensures Pushed(old(context), context, r, Render(writer, nestedBinaryOperators, n))
      decreases n, 1
    {
      match n
      case Leaf(v) =>
        VisitLeaf(v);
        r := Pass;
      case OpNode(_, _, _) =>
        r := VisitInternal(n);
    }

    /** Opens the operator's scope, visits the left then the right child, pops their texts
        (right first), brackets nested operands, closes the scope and pushes the operator's
        filled template. */
    method VisitInternal(on: Node) returns (r: Outcome<GenError>)
      requires on.OpNode?
      modifies this
      ensures success == old(success)
      ensures Pushed(old(context), context, r, Render(writer, nestedBinaryOperators, on))
      decreases on, 0
    {
      var t := GetOperatorTemplate(writer, on.op);
      if t.None? {
        return Fail(NoTemplate(on.op));
      }
      var start := context;
      context := context.Internal(t.value);
      var inScope := context;
      var lt: Result<string, GenError> := Ok("");
      if on.left.Some? {
        r := Visit(on.left.value);
        lt := Render(writer, nestedBinaryOperators, on.left.value);
        if r.Fail? {
          return;
        }
      }
      var afterLeft := context;
      var rt: Result<string, GenError> := Ok("");
      if on.right.Some? {
        r := Visit(on.right.value);
        rt := Render(writer, nestedBinaryOperators, on.right.value);
        if r.Fail? {
          return;
        }
      }
      var operands: seq<string> := [];
      if on.right.Some? {
        assert context == afterLeft.Push(rt.value);
        afterLeft.PopPush(rt.value);
        var p := context.Pop();
        operands := [OperandText(nestedBinaryOperators, on.op, on.right.value, p.value.0)] + operands;
        context := p.value.1;
      }
      assert context == afterLeft;
      if on.left.Some? {
        assert context == inScope.Push(lt.value);
        inScope.PopPush(lt.value);
        var p := context.Pop();
        operands := [OperandText(nestedBinaryOperators, on.op, on.left.value, p.value.0)] + operands;
        context := p.value.1;
      }
      assert context == inScope;
      ghost var ls := if on.left.Some? then [OperandText(nestedBinaryOperators, on.op, on.left.value, lt.value)] else [];
      ghost var rs := if on.right.Some? then [OperandText(nestedBinaryOperators, on.op, on.right.value, rt.value)] else [];
      assert ChildOperand(nestedBinaryOperators, on.op, on.left, lt) == Ok(ls);
      assert ChildOperand(nestedBinaryOperators, on.op, on.right, rt) == Ok(rs);
      assert operands == ls + rs;
      start.DisposeInternal(t.value);
      context := context.Dispose();
      context := context.Push(WriteOperator(writer, on.op, operands));
      r := Pass;
    }

    /** Succeeds, and sets success, exactly when the context holds one fragment. */
    method AfterVisitTree() returns (r: Outcome<GenError>)
      modifies this
      ensures context == old(context)
      ensures r == (if context.Count() == 1 then Pass else Fail(ContextCount(context.Count())))
      ensures success == (old(success) || r.Pass?)
    {
      if context.Count() != 1 {
        return Fail(ContextCount(context.Count()));
      }
      success := true;
      r := Pass;
    }

    /** Visits the whole tree, then checks the context. From a fresh context this succeeds
        exactly when the tree renders, and the generated text is then its rendering. */
    method VisitTree(root: Node) returns (r: Outcome<GenError>)
      modifies this
      ensures old(context) == EmptyContext ==>
        (r.Pass? <==> Render(writer, nestedBinaryOperators, root).Ok?)
      ensures r.Pass? ==> success
      ensures old(context) == EmptyContext && r.Pass? ==>
        Text() == Some(Render(writer, nestedBinaryOperators, root).value)
    {
      r := Visit(root);
      if r.Fail? {
        return;
      }
      r := AfterVisitTree();
    }
  }
}
