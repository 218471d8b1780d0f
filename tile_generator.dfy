/** The Tile generator as the object the compiler builds: construction names the dimension
    variables, visits the tree and writes the function text. Each method is proved to do what
    the corresponding function of TileGeneration or TileFunction specifies. */
module TileGenerators {
  import opened Wrappers
  import opened Trees
  import opened Text
  import opened Writers
  import opened Generation
  import opened TileGeneration
  import opened TileFunction
  import TileWriting

  /** The state a step leaves, as its specification predicts it: on success exactly the
      predicted state, otherwise the predicted failure. */
  ghost predicate Stepped(after: TileState, r: Outcome<GenError>, expected: Result<TileState, GenError>)
  {
    match expected
    case Ok(s) => r == Pass && after == s
    case Err(e) => r == Fail(e)
  }

  /** The body text the prologue is joined with: the top fragment, or nothing when the
      context is empty (a missing string concatenates as empty). */
  function Body(c: Context): (r: string)
    ensures c.Count() == 1 ==> r == c.fragments[0]
  {
    match TopText(c)
    case None => ""
    case Some(t) => t
  }

  /** The candidate-name loop: append the counters 1, 2, ... to base until the name is not
      among those taken. It stops because each counter makes the name longer and the taken
      names are finitely many. */
  method FirstFreeName(base: string, taken: set<string>) returns (name: string)
    ensures name == Suffixed(base, FreshCount(base, 0, taken))
    ensures name !in taken
  {
    name := base;
    var n := 0;
    while name in taken
      invariant name == Suffixed(base, n)
      invariant FreshCount(base, n, taken) == FreshCount(base, 0, taken)
      decreases MaxLength(taken) + 1 - |name|
    {
      FreshCountStep(base, n, taken);
      n := n + 1;
      name := name + NatToString(n);
    }
    FreshCountDone(base, n, taken);
  }

  class TileGenerator {
    const tree: ExpressionTree
    const writer: LanguageWriter
    var context: Context
    var variableDefinitions: seq<string>
    var tensorDimensionVariables: map<ValueNode, string>
    var functionText: string
    var success: bool

    /** The fields before construction does its work. */
    constructor Init(tree: ExpressionTree)
      ensures this.tree == tree && writer == TileWriting.Writer
      ensures context == EmptyContext && variableDefinitions == []
      ensures tensorDimensionVariables == map[] && functionText == "" && !success
    {
      this.tree := tree;
      writer := TileWriting.Writer;
      context := EmptyContext;
      variableDefinitions := [];
      tensorDimensionVariables := map[];
      functionText := "";
      success := false;
    }

    /** What the visit reads. */
    function VisitSetup(): Setup
      reads this
    {
      Setup(writer, tree, tensorDimensionVariables)
    }

    /** What the visit changes. */
    function State(): TileState
      reads this
    {
      TileState(context, variableDefinitions)
    }

    /** Builds a generator for a tree: names the dimension variables, then visits the tree.
        It fails as the generation of the tree fails, and otherwise holds what that generation
        produces. */
    static method Create(tree: ExpressionTree) returns (r: Result<TileGenerator, GenError>)
      ensures match Generate(tree)
        case Err(e) => r == Err(e)
        case Ok(x) =>
          r.Ok? && fresh(r.value) && r.value.tree == tree && r.value.writer == TileWriting.Writer &&
          r.value.tensorDimensionVariables == x.dims && r.value.variableDefinitions == x.definitions &&
          TopText(r.value.context) == Some(x.text) && r.value.functionText == x.functionText &&
          r.value.success
    {
      var g := new TileGenerator.Init(tree);
      var d := g.GetDimensionVariableNames();
      if d.Fail? {
        return Err(d.error);
      }
      assert g.VisitSetup() == TileSetup(tree, g.tensorDimensionVariables);
      var v := g.VisitTree();
      if v.Fail? {
        return Err(v.error);
      }
      return Ok(g);
    }

    /** Fills the dictionary of dimension variables, one input at a time; each candidate name
        grows by a counter while it is already a value of the dictionary. */
    method GetDimensionVariableNames() returns (r: Outcome<GenError>)
      modifies this
      ensures context == old(context) && variableDefinitions == old(variableDefinitions)
      ensures functionText == old(functionText) && success == old(success)
      ensures match DimensionNames(tree.inputVariableNodes)
        case Ok(m) => r == Pass && tensorDimensionVariables == m
        case Err(e) => r == Fail(e)
    {
      tensorDimensionVariables := map[];
      var inputs := tree.inputVariableNodes;
      var k := 0;
      while k < |inputs|
        invariant 0 <= k <= |inputs|
        invariant DimensionNames(inputs[..k]) == Ok(tensorDimensionVariables)
        invariant context == old(context) && variableDefinitions == old(variableDefinitions)
        invariant functionText == old(functionText) && success == old(success)
      {
        var v := inputs[k];
        var name := FirstFreeName(v.name + "N", tensorDimensionVariables.Values);
        assert inputs[..k + 1] == inputs[..k] + [v];
        if v in tensorDimensionVariables {
          DimensionNamesPrefixErr(inputs, k + 1);
          return Fail(DuplicateKey(v));
        }
        DimensionNamesStep(inputs[..k], v, tensorDimensionVariables);
        tensorDimensionVariables := tensorDimensionVariables[v := Upper(name)];
        k := k + 1;
      }
      assert inputs[..k] == inputs;
      r := Pass;
    }

    /** Visits the root, then checks the context and writes the function text. */
    method VisitTree() returns (r: Outcome<GenError>)
      modifies this
      ensures tensorDimensionVariables == old(tensorDimensionVariables)
      ensures match TileVisit(VisitSetup(), tree.root, old(State()))
        case Err(e) => r == Fail(e)
        case Ok(st) =>
          State() == st &&
          if st.context.Count() == 1 then
            r == Pass && success && functionText == FunctionText(tree, Body(st.context))
          else r == Fail(ContextCount(st.context.Count()))
    {
      r := Visit(tree.root);
      if r.Fail? {
        return;
      }
      r := AfterVisitTree();
    }

    /** Succeeds, sets success and writes the function text exactly when the context holds
        one fragment. */
    method AfterVisitTree() returns (r: Outcome<GenError>)
      modifies this
      ensures context == old(context) && variableDefinitions == old(variableDefinitions)
      ensures tensorDimensionVariables == old(tensorDimensionVariables)
      ensures r == (if context.Count() == 1 then Pass else Fail(ContextCount(context.Count())))
      ensures r.Pass? ==> success && functionText == FunctionText(tree, Body(context))
      ensures r.Fail? ==> success == old(success) && functionText == old(functionText)
    {
      if context.Count() != 1 {
        return Fail(ContextCount(context.Count()));
      }
      success := true;
      WriteFunctionPrologue();
      r := Pass;
    }

    /** Assembles "function(", the parameters each followed by ", ", drops the last two
        characters, appends ") -> ", the result and " { ", then the body and "}". */
    method WriteFunctionPrologue()
      modifies this
      ensures context == old(context) && variableDefinitions == old(variableDefinitions)
      ensures tensorDimensionVariables == old(tensorDimensionVariables) && success == old(success)
      ensures functionText == FunctionText(tree, Body(context))
    {
      var inputs := tree.inputVariableNodes;
      var parents := tree.indexSetParentNames;
      var prologue := "function(";
      var k := 0;
      while k < |inputs|
        invariant 0 <= k <= |inputs|
        invariant prologue == "function(" + ParameterList(Parameters(inputs[..k], parents))
        invariant context == old(context) && variableDefinitions == old(variableDefinitions)
        invariant tensorDimensionVariables == old(tensorDimensionVariables) && success == old(success)
      {
        var ps := Parameters(inputs[..k], parents);
        ParametersStep(inputs, parents, k);
        if inputs[k].name !in parents {
          var u := Upper(inputs[k].name);
          ParameterListAppend("function(", ps, u);
          prologue := prologue + u + ", ";
        } else {
          assert ps + [] == ps;
        }
        k := k + 1;
      }
      assert inputs[..k] == inputs;
      prologue := prologue[..|prologue| - 2];
      prologue := prologue + ") -> ";
      if tree.outputNode.name !in parents {
        prologue := prologue + ("(" + Upper(tree.outputNode.name) + ")");
      } else {
        assert prologue == prologue + Returned(tree);
      }
      prologue := prologue + " { ";
      assert prologue == Prologue(tree);
      functionText := prologue + Body(context) + "}";
    }

    /** A leaf pushes its value text. */
    method VisitLeaf(v: ValueNode)
      modifies this
      ensures context == old(context).Push(WriteValueText(writer, v))
      ensures variableDefinitions == old(variableDefinitions)
      ensures tensorDimensionVariables == old(tensorDimensionVariables)
      ensures functionText == old(functionText) && success == old(success)
    {
      context := context.Push(WriteValueText(writer, v));
    }

    method Visit(n: Node) returns (r: Outcome<GenError>)
      modifies this
      ensures Stepped(State(), r, TileVisit(VisitSetup(), n, old(State())))
      ensures tensorDimensionVariables == old(tensorDimensionVariables)
      ensures functionText == old(functionText) && success == old(success)
      decreases n, 3
    {
      match n
      case Leaf(v) =>
        VisitLeaf(v);
        r := Pass;
      case OpNode(_, _, _) =>
        r := VisitInternal(n);
    }

    /** Element-wise assignments and subscripts have their own visits; a subscript at the start
        of an assignment, and every other operator, get the base visit. */
    method VisitInternal(on: Node) returns (r: Outcome<GenError>)
      requires on.OpNode?
      modifies this
      ensures Stepped(State(), r, TileVisitInternal(VisitSetup(), on, old(State())))
      ensures tensorDimensionVariables == old(tensorDimensionVariables)
      ensures functionText == old(functionText) && success == old(success)
      decreases on, 2
    {
      if on.op == ElementWiseAssign {
        r := VisitElementWise(on);
      } else if on.op == Index {
        if context.Count() <= 1 {
          var start := IsOpStart(writer, context.frames, Assign);
          if start.Err? {
            return Fail(start.error);
          }
          if start.value {
            r := BaseVisitInternal(on);
            return;
          }
        }
        r := VisitIndex(on);
      } else {
        r := BaseVisitInternal(on);
      }
    }

    /** The generic generator's operator visit: open the scope, visit the children, pop the
        right then the left text, bracket nested operands, close the scope, push the filled
        template. */
    method BaseVisitInternal(on: Node) returns (r: Outcome<GenError>)
      requires on.OpNode?
      modifies this
      ensures Stepped(State(), r, TileBase(VisitSetup(), on, old(State())))
      ensures tensorDimensionVariables == old(tensorDimensionVariables)
      ensures functionText == old(functionText) && success == old(success)
      decreases on, 1
    {
      var t := GetOperatorTemplate(writer, on.op);
      if t.None? {
        return Fail(NoTemplate(on.op));
      }
      context := context.Internal(t.value);
      r := VisitChildren(on);
      if r.Fail? {
        return;
      }
      var nested := TileWriting.NestedBinaryOperators;
      var rightOperand: seq<string> := [];
      if on.right.Some? {
        var p := context.Pop();
        if p.Err? {
          return Fail(p.error);
        }
        rightOperand := [OperandText(nested, on.op, on.right.value, p.value.0)];
        context := p.value.1;
      }
      var leftOperand: seq<string> := [];
      if on.left.Some? {
        var p := context.Pop();
        if p.Err? {
          return Fail(p.error);
        }
        leftOperand := [OperandText(nested, on.op, on.left.value, p.value.0)];
        context := p.value.1;
      }
      context := context.Dispose();
      context := context.Push(WriteOperator(writer, on.op, leftOperand + rightOperand));
    }

    /** The tree visitor's child visit: the left child, then the right child. */
    method VisitChildren(on: Node) returns (r: Outcome<GenError>)
      requires on.OpNode?
      modifies this
      ensures Stepped(State(), r, TileGeneration.VisitChildren(VisitSetup(), on, old(State())))
      ensures tensorDimensionVariables == old(tensorDimensionVariables)
      ensures functionText == old(functionText) && success == old(success)
      decreases on, 0
    {
      r := Pass;
      if on.left.Some? {
        r := Visit(on.left.value);
        if r.Fail? {
          return;
        }
      }
      if on.right.Some? {
        r := Visit(on.right.value);
      }
    }

    /** Inside the operator's scope: visit the right child and pop its text, then visit the
        left child and pop its text. */
    method VisitOperands(on: Node) returns (r: Outcome<GenError>, lhs: string, rhs: string)
      requires on.OpNode? && on.op in writer.operatorTemplate
      modifies this
      ensures match VisitPair(VisitSetup(), on, old(State()))
        case Err(e) => r == Fail(e)
        case Ok((l, s, st)) => r == Pass && lhs == l && rhs == s && State() == st
      ensures tensorDimensionVariables == old(tensorDimensionVariables)
      ensures functionText == old(functionText) && success == old(success)
      decreases on, 0
    {
      lhs, rhs := "", "";
      context := context.Internal(writer.operatorTemplate[on.op]);
      if on.right.Some? {
        r := Visit(on.right.value);
        if r.Fail? {
          return;
        }
      }
      var p := context.Pop();
      if p.Err? {
        return Fail(p.error), "", "";
      }
      rhs := p.value.0;
      context := p.value.1;
      if on.left.Some? {
        r := Visit(on.left.value);
        if r.Fail? {
          return;
        }
      }
      var q := context.Pop();
      if q.Err? {
        return Fail(q.error), "", "";
      }
      lhs := q.value.0;
      context := q.value.1.Dispose();
      r := Pass;
    }

    /** Queues "lhs = rhs;" and a line break, and pushes the template filled with lhs. */
    method VisitElementWise(on: Node) returns (r: Outcome<GenError>)
      requires on.OpNode? && on.op == ElementWiseAssign
      modifies this
      ensures Stepped(State(), r, TileElementWise(VisitSetup(), on, old(State())))
      ensures tensorDimensionVariables == old(tensorDimensionVariables)
      ensures functionText == old(functionText) && success == old(success)
      decreases on, 1
    {
      if ElementWiseAssign !in writer.operatorTemplate {
        return Fail(NoTemplate(ElementWiseAssign));
      }
      var lhs, rhs;
      r, lhs, rhs := VisitOperands(on);
      if r.Fail? {
        return;
      }
      variableDefinitions := variableDefinitions + [Statement(lhs, rhs)];
      context := context.Push(WriteOperator(writer, ElementWiseAssign, [lhs]));
    }

    /** Resolves the indexed tensor and pushes the subscript, with the tensor's dimension
        variable when it is an input. */
    method VisitIndex(on: Node) returns (r: Outcome<GenError>)
      requires on.OpNode? && on.op == Index
      modifies this
      ensures Stepped(State(), r, TileSubscript(VisitSetup(), on, old(State())))
      ensures tensorDimensionVariables == old(tensorDimensionVariables)
      ensures functionText == old(functionText) && success == old(success)
      decreases on, 1
    {
      if Index !in writer.operatorTemplate {
        return Fail(NoTemplate(Index));
      }
      var lhs, rhs;
      r, lhs, rhs := VisitOperands(on);
      if r.Fail? {
        return;
      }
      var tensor: ValueNode;
      if on.left.Some? && on.left.value.Leaf? {
        tensor := on.left.value.value;
        if tensor.kind != TENSOR {
          return Fail(IndexLhsNotTensor);
        }
      } else if on.left.Some? && on.left.value.OpNode? && on.left.value.op == ElementWiseAssign {
        var inner := on.left.value.left;
        if inner.None? || inner.value.OpNode? {
          return Fail(NullReference);
        }
        tensor := inner.value.value;
        if tensor.kind != TENSOR {
          return Fail(IndexLhsNotTensor);
        }
      } else {
        return Fail(IndexLhsUndetermined);
      }
      if tensor in tree.inputVariableNodes {
        if tensor !in tensorDimensionVariables {
          return Fail(KeyNotFound(tensor));
        }
        var dim := tensorDimensionVariables[tensor];
        context := context.Push(WriteOperator(writer, Index, [lhs, rhs + ":" + dim]));
      } else {
        context := context.Push(WriteOperator(writer, Index, [lhs, rhs]));
      }
    }
  }
}
