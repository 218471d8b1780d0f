/** The semantics of the Tile generator as functions: how its visit treats element-wise
    assignments, subscripts and the remaining operators; a reference rendering of whole trees;
    the dimension variable of each input tensor; and the function text it finally writes. */
module TileGeneration {
  import opened Wrappers
  import opened Trees
  import opened Text
  import opened Writers
  import opened Generation
  import TileWriting

  const NewLine: string := "\n"

  /** What the tile visit reads: the writer, the tree, and each input's dimension variable. */
  datatype Setup = Setup(writer: LanguageWriter, tree: ExpressionTree, dims: map<ValueNode, string>)

  /** What the tile visit changes: the context and the writer's queue of variable definitions. */
  datatype TileState = TileState(context: Context, definitions: seq<string>)

  /** The definition queued for an element-wise assignment: "lhs = rhs;" and a line break. */
  function Statement(lhs: string, rhs: string): string
  {
    lhs + " = " + rhs + ";" + NewLine
  }

  /** The statement is the format "{0} = {1};" applied to the two sides, then a line break. */
  lemma StatementFormat(lhs: string, rhs: string)
    ensures Statement(lhs, rhs) == Substitute("{0} = {1};", [lhs, rhs]) + NewLine
  {
    assert "{0} = {1};" == "{0}" + " = " + "{1}" + ";";
    SubstituteBinary(" = ", ";", lhs, rhs);
  }

  /** The tensor a subscript indexes: its left child when that is a tensor leaf, or the left
      child of an element-wise assignment on its left. */
  function IndexedTensor(left: Option<Node>): (r: Result<ValueNode, GenError>)
    ensures r.Ok? ==> r.value.kind == TENSOR
    ensures r.Ok? <==>
      (left.Some? && left.value.Leaf? && left.value.value.kind == TENSOR) ||
      (left.Some? && left.value.OpNode? && left.value.op == ElementWiseAssign &&
       left.value.left.Some? && left.value.left.value.Leaf? && left.value.left.value.value.kind == TENSOR)
  {
    if left.None? then Err(IndexLhsUndetermined)
    else match left.value
      case Leaf(v) => if v.kind == TENSOR then Ok(v) else Err(IndexLhsNotTensor)
      case OpNode(op, l, _) =>
        if op != ElementWiseAssign then Err(IndexLhsUndetermined)
        else if l.None? || l.value.OpNode? then Err(NullReference)
        else if l.value.value.kind == TENSOR then Ok(l.value.value)
        else Err(IndexLhsNotTensor)
  }

  /** The subscript text: an input tensor's index list carries its dimension variable. */
  function SubscriptText(g: Setup, tensor: ValueNode, lhs: string, rhs: string): Result<string, GenError>
    requires Index in g.writer.operatorTemplate
  {
    if tensor in g.tree.inputVariableNodes then
      if tensor in g.dims then Ok(WriteOperator(g.writer, Index, [lhs, rhs + ":" + g.dims[tensor]]))
      else Err(KeyNotFound(tensor))
    else Ok(WriteOperator(g.writer, Index, [lhs, rhs]))
  }

  /** The tile visit of a node: a leaf pushes its value text, an operator node goes to the
      tile generator's VisitInternal. */
  function TileVisit(g: Setup, n: Node, st: TileState): Result<TileState, GenError>
    decreases n, 3
  {
    match n
    case Leaf(v) => Ok(st.(context := st.context.Push(WriteValueText(g.writer, v))))
    case OpNode(_, _, _) => TileVisitInternal(g, n, st)
  }

  /** Element-wise assignments and subscripts have their own treatment, except a subscript at
      the start of an assignment (at most one fragment on the context and the innermost
      operator an assignment), which is visited like any other operator. */
  function TileVisitInternal(g: Setup, on: Node, st: TileState): Result<TileState, GenError>
    requires on.OpNode?
    decreases on, 2
  {
    if on.op == ElementWiseAssign then TileElementWise(g, on, st)
    else if on.op == Index then
      if st.context.Count() <= 1 then
        var start :- IsOpStart(g.writer, st.context.frames, Assign);
        if start then TileBase(g, on, st) else TileSubscript(g, on, st)
      else TileSubscript(g, on, st)
    else TileBase(g, on, st)
  }

  /** The base visit: open the scope, visit the children, pop and bracket their texts, close
      the scope, push the filled template. */
  function TileBase(g: Setup, on: Node, st: TileState): Result<TileState, GenError>
    requires on.OpNode?
    decreases on, 1
  {
    if on.op !in g.writer.operatorTemplate then Err(NoTemplate(on.op))
    else
      var st3 :- VisitChildren(g, on, st.(context := st.context.Internal(g.writer.operatorTemplate[on.op])));
      var p :- PopOperands(TileWriting.NestedBinaryOperators, on, st3.context);
      Ok(st3.(context := p.1.Dispose().Push(WriteOperator(g.writer, on.op, p.0))))
  }

  /** The tree visitor's own VisitInternal: visit the left child, then the right child. */
  function VisitChildren(g: Setup, on: Node, st: TileState): Result<TileState, GenError>
    requires on.OpNode?
    decreases on, 0
  {
    var st2 :- match on.left case None => Ok(st) case Some(x) => TileVisit(g, x, st);
    match on.right case None => Ok(st2) case Some(y) => TileVisit(g, y, st2)
  }

  /** Visits the right child and pops its text, then visits the left child and pops its text,
      all inside the operator's scope. */
  function VisitPair(g: Setup, on: Node, st: TileState): Result<(string, string, TileState), GenError>
    requires on.OpNode? && on.op in g.writer.operatorTemplate
    decreases on, 0
  {
    var st1 := st.(context := st.context.Internal(g.writer.operatorTemplate[on.op]));
    var st2 :- match on.right case None => Ok(st1) case Some(y) => TileVisit(g, y, st1);
    var rhs :- st2.context.Pop();
    var st3 :- match on.left case None => Ok(st2.(context := rhs.1))
                                  case Some(x) => TileVisit(g, x, st2.(context := rhs.1));
    var lhs :- st3.context.Pop();
    Ok((lhs.0, rhs.0, st3.(context := lhs.1.Dispose())))
  }

  /** An element-wise assignment queues the definition "lhs = rhs;" and leaves the operator's
      template filled with the left-hand side alone. */
  function TileElementWise(g: Setup, on: Node, st: TileState): Result<TileState, GenError>
    requires on.OpNode? && on.op == ElementWiseAssign
    decreases on, 1
  {
    if ElementWiseAssign !in g.writer.operatorTemplate then Err(NoTemplate(ElementWiseAssign))
    else
      var (lhs, rhs, st1) :- VisitPair(g, on, st);
      Ok(TileState(st1.context.Push(WriteOperator(g.writer, ElementWiseAssign, [lhs])),
                   st1.definitions + [Statement(lhs, rhs)]))
  }

  /** A subscript resolves the tensor it indexes and writes the subscript text for it. */
  function TileSubscript(g: Setup, on: Node, st: TileState): Result<TileState, GenError>
    requires on.OpNode? && on.op == Index
    decreases on, 1
  {
    if Index !in g.writer.operatorTemplate then Err(NoTemplate(Index))
    else
      var (lhs, rhs, st1) :- VisitPair(g, on, st);
      var tensor :- IndexedTensor(on.left);
      var text :- SubscriptText(g, tensor, lhs, rhs);
      Ok(st1.(context := st1.context.Push(text)))
  }

  /** Trees whose every operator node has both children. */
  predicate Full(n: Node)
  {
    match n
    case Leaf(_) => true
    case OpNode(_, l, r) =>
      l.Some? && r.Some? && Full(l.value) && Full(r.value)
  }

  /** What a subtree contributes: the one fragment it leaves and the definitions it queues. */
  datatype Rendered = Rendered(text: string, definitions: seq<string>)

  /** Reference rendering of a full tree visited with `depth` fragments already on the context
      and the scopes `frames` open. */
  function TileRender(g: Setup, n: Node, depth: nat, frames: seq<string>): Result<Rendered, GenError>
    requires Full(n)
    decreases n, 3
  {
    match n
    case Leaf(v) => Ok(Rendered(WriteValueText(g.writer, v), []))
    case OpNode(_, _, _) => RenderInternal(g, n, depth, frames)
  }

  /** The operator dispatch of the reference rendering, as the tile visit's. */
  function RenderInternal(g: Setup, on: Node, depth: nat, frames: seq<string>): Result<Rendered, GenError>
    requires on.OpNode? && Full(on)
    decreases on, 2
  {
    if on.op == ElementWiseAssign then RenderElementWise(g, on, depth, frames)
    else if on.op == Index then
      if depth <= 1 then
        var start :- IsOpStart(g.writer, frames, Assign);
        if start then RenderBase(g, on, depth, frames) else RenderSubscript(g, on, depth, frames)
      else RenderSubscript(g, on, depth, frames)
    else RenderBase(g, on, depth, frames)
  }

  /** Any other operator: its template filled with the bracketed texts of its children. */
  function RenderBase(g: Setup, on: Node, depth: nat, frames: seq<string>): Result<Rendered, GenError>
    requires on.OpNode? && Full(on)
    decreases on, 1
  {
    if on.op !in g.writer.operatorTemplate then Err(NoTemplate(on.op))
    else
      var (lr, rr) :- RenderChildren(g, on, depth, frames + [g.writer.operatorTemplate[on.op]]);
      var nested := TileWriting.NestedBinaryOperators;
      Ok(Rendered(WriteOperator(g.writer, on.op, [OperandText(nested, on.op, on.left.value, lr.text),
                                                  OperandText(nested, on.op, on.right.value, rr.text)]),
                  lr.definitions + rr.definitions))
  }

  /** The renderings of the left and then the right child, the right one with the left one's
      fragment already pushed. */
  function RenderChildren(g: Setup, on: Node, depth: nat, frames: seq<string>): Result<(Rendered, Rendered), GenError>
    requires on.OpNode? && Full(on)
    decreases on, 0
  {
    var lr :- TileRender(g, on.left.value, depth, frames);
    var rr :- TileRender(g, on.right.value, depth + 1, frames);
    Ok((lr, rr))
  }

  /** The renderings of the right and then the left child, both at the same depth inside the
      operator's scope. */
  function RenderBoth(g: Setup, on: Node, depth: nat, frames: seq<string>): Result<(Rendered, Rendered), GenError>
    requires on.OpNode? && Full(on) && on.op in g.writer.operatorTemplate
    decreases on, 0
  {
    var inner := frames + [g.writer.operatorTemplate[on.op]];
    var rr :- TileRender(g, on.right.value, depth, inner);
    var lr :- TileRender(g, on.left.value, depth, inner);
    Ok((lr, rr))
  }

  function RenderElementWise(g: Setup, on: Node, depth: nat, frames: seq<string>): Result<Rendered, GenError>
    requires on.OpNode? && on.op == ElementWiseAssign && Full(on)
    decreases on, 1
  {
    if ElementWiseAssign !in g.writer.operatorTemplate then Err(NoTemplate(ElementWiseAssign))
    else
      var (lr, rr) :- RenderBoth(g, on, depth, frames);
      Ok(Rendered(WriteOperator(g.writer, ElementWiseAssign, [lr.text]),
                  rr.definitions + lr.definitions + [Statement(lr.text, rr.text)]))
  }

  function RenderSubscript(g: Setup, on: Node, depth: nat, frames: seq<string>): Result<Rendered, GenError>
    requires on.OpNode? && on.op == Index && Full(on)
    decreases on, 1
  {
    if Index !in g.writer.operatorTemplate then Err(NoTemplate(Index))
    else
      var (lr, rr) :- RenderBoth(g, on, depth, frames);
      var tensor :- IndexedTensor(on.left);
      var text :- SubscriptText(g, tensor, lr.text, rr.text);
      Ok(Rendered(text, rr.definitions + lr.definitions))
  }

  /** The state after a subtree's reference rendering: its text pushed, its definitions
      queued; or its failure. */
  function After(st: TileState, r: Result<Rendered, GenError>): Result<TileState, GenError>
  {
    match r
    case Err(e) => Err(e)
    case Ok(x) => Ok(TileState(st.context.Push(x.text), st.definitions + x.definitions))
  }

  /** The tile visit of a full tree leaves exactly one more fragment on the context, closes
      every scope it opens, and queues its definitions after the existing ones; its failures
      are those of the reference rendering. */
  lemma {:induction false} VisitRenders(g: Setup, n: Node, st: TileState)
    requires Full(n)
    ensures TileVisit(g, n, st) == After(st, TileRender(g, n, st.context.Count(), st.context.frames))
    decreases n, 3
  {
    match n
    case Leaf(_) =>
      assert st.definitions + [] == st.definitions;
    case OpNode(_, _, _) =>
      InternalRenders(g, n, st);
  }

  lemma {:induction false} InternalRenders(g: Setup, on: Node, st: TileState)
    requires on.OpNode? && Full(on)
    ensures TileVisitInternal(g, on, st) == After(st, RenderInternal(g, on, st.context.Count(), st.context.frames))
    decreases on, 2
  {
    if on.op == ElementWiseAssign {
      ElementWiseRenders(g, on, st);
    } else if on.op == Index {
      SubscriptRenders(g, on, st);
      BaseRenders(g, on, st);
    } else {
      BaseRenders(g, on, st);
    }
  }

  lemma {:induction false} BaseRenders(g: Setup, on: Node, st: TileState)
    requires on.OpNode? && Full(on)
    ensures TileBase(g, on, st) == After(st, RenderBase(g, on, st.context.Count(), st.context.frames))
    decreases on, 1
  {
    if on.op in g.writer.operatorTemplate {
      var t := g.writer.operatorTemplate[on.op];
      var st1 := st.(context := st.context.Internal(t));
      ChildrenRender(g, on, st1);
      var b := RenderChildren(g, on, st.context.Count(), st.context.frames + [t]);
      if b.Ok? {
        var (lr, rr) := b.value;
        BaseRendersOk(g, on, st, t, lr, rr);
      }
    }
  }

  /** The base visit after both children have been visited. */
  lemma BaseRendersOk(g: Setup, on: Node, st: TileState, t: string, lr: Rendered, rr: Rendered)
    requires on.OpNode? && Full(on) && on.op in g.writer.operatorTemplate
    requires t == g.writer.operatorTemplate[on.op]
    requires RenderChildren(g, on, st.context.Count(), st.context.frames + [t]) == Ok((lr, rr))
    requires VisitChildren(g, on, st.(context := st.context.Internal(t)))
          == Ok(TileState(st.context.Internal(t).Push(lr.text).Push(rr.text), st.definitions + lr.definitions + rr.definitions))
    ensures TileBase(g, on, st) == After(st, RenderBase(g, on, st.context.Count(), st.context.frames))
  {
    PopOperandsBinary(TileWriting.NestedBinaryOperators, on, st.context.Internal(t), lr.text, rr.text);
    st.context.DisposeInternal(t);
    AppendAssoc(st.definitions, lr.definitions, rr.definitions);
  }

  /** Visiting both children in order matches rendering them. */
  lemma {:induction false} ChildrenRender(g: Setup, on: Node, st: TileState)
    requires on.OpNode? && Full(on)
    ensures VisitChildren(g, on, st) ==
      match RenderChildren(g, on, st.context.Count(), st.context.frames)
      case Err(e) => Err(e)
      case Ok((lr, rr)) => Ok(TileState(st.context.Push(lr.text).Push(rr.text), st.definitions + lr.definitions + rr.definitions))
    decreases on, 0
  {
    VisitRenders(g, on.left.value, st);
    var lr := TileRender(g, on.left.value, st.context.Count(), st.context.frames);
    if lr.Ok? {
      var st2 := TileState(st.context.Push(lr.value.text), st.definitions + lr.value.definitions);
      VisitRenders(g, on.right.value, st2);
    }
  }

  /** Visiting the right then the left child, popping each text, matches rendering both. */
  lemma {:induction false} PairRenders(g: Setup, on: Node, st: TileState)
    requires on.OpNode? && Full(on) && on.op in g.writer.operatorTemplate
    ensures VisitPair(g, on, st) == PairAfter(st, RenderBoth(g, on, st.context.Count(), st.context.frames))
    decreases on, 0
  {
    var t := g.writer.operatorTemplate[on.op];
    var st1 := st.(context := st.context.Internal(t));
    var l, r := on.left.value, on.right.value;
    VisitRenders(g, r, st1);
    var rr := TileRender(g, r, st.context.Count(), st.context.frames + [t]);
    if rr.Ok? {
      st1.context.PopPush(rr.value.text);
      var st2p := TileState(st1.context, st1.definitions + rr.value.definitions);
      VisitRenders(g, l, st2p);
      var lr := TileRender(g, l, st.context.Count(), st.context.frames + [t]);
      if lr.Ok? {
        PairRendersOk(g, on, st, t, lr.value, rr.value);
      }
    }
  }

  /** The result of VisitPair predicted from the renderings of both children. */
  function PairAfter(st: TileState, r: Result<(Rendered, Rendered), GenError>): Result<(string, string, TileState), GenError>
  {
    match r
    case Err(e) => Err(e)
    case Ok((lr, rr)) => Ok((lr.text, rr.text, TileState(st.context, st.definitions + (rr.definitions + lr.definitions))))
  }

  lemma PairRendersOk(g: Setup, on: Node, st: TileState, t: string, lr: Rendered, rr: Rendered)
    requires on.OpNode? && Full(on) && on.op in g.writer.operatorTemplate
    requires t == g.writer.operatorTemplate[on.op]
    requires TileRender(g, on.right.value, st.context.Count(), st.context.frames + [t]) == Ok(rr)
    requires TileRender(g, on.left.value, st.context.Count(), st.context.frames + [t]) == Ok(lr)
    requires TileVisit(g, on.right.value, st.(context := st.context.Internal(t)))
          == Ok(TileState(st.context.Internal(t).Push(rr.text), st.definitions + rr.definitions))
    requires TileVisit(g, on.left.value, TileState(st.context.Internal(t), st.definitions + rr.definitions))
          == Ok(TileState(st.context.Internal(t).Push(lr.text), st.definitions + rr.definitions + lr.definitions))
    ensures VisitPair(g, on, st) == PairAfter(st, RenderBoth(g, on, st.context.Count(), st.context.frames))
  {
    var c1 := st.context.Internal(t);
    assert c1.Push(rr.text).Pop() == Ok((rr.text, c1)) by {
      c1.PopPush(rr.text);
    }
    assert c1.Push(lr.text).Pop() == Ok((lr.text, c1)) by {
      c1.PopPush(lr.text);
    }
    assert c1.Dispose() == st.context by {
      st.context.DisposeInternal(t);
    }
    var defs := st.definitions + rr.definitions + lr.definitions;
    assert VisitPair(g, on, st) == Ok((lr.text, rr.text, TileState(st.context, defs)));
    assert RenderBoth(g, on, st.context.Count(), st.context.frames) == Ok((lr, rr));
    assert defs == st.definitions + (rr.definitions + lr.definitions);
  }

  lemma {:induction false} ElementWiseRenders(g: Setup, on: Node, st: TileState)
    requires on.OpNode? && on.op == ElementWiseAssign && Full(on)
    ensures TileElementWise(g, on, st) == After(st, RenderElementWise(g, on, st.context.Count(), st.context.frames))
    decreases on, 1
  {
    if ElementWiseAssign in g.writer.operatorTemplate {
      PairRenders(g, on, st);
      var b := RenderBoth(g, on, st.context.Count(), st.context.frames);
      if b.Ok? {
        ElementWiseRendersOk(g, on, st, b.value.0, b.value.1);
      }
    }
  }

  lemma ElementWiseRendersOk(g: Setup, on: Node, st: TileState, lr: Rendered, rr: Rendered)
    requires on.OpNode? && on.op == ElementWiseAssign && Full(on) && ElementWiseAssign in g.writer.operatorTemplate
    requires RenderBoth(g, on, st.context.Count(), st.context.frames) == Ok((lr, rr))
    requires VisitPair(g, on, st) == Ok((lr.text, rr.text, TileState(st.context, st.definitions + (rr.definitions + lr.definitions))))
    ensures TileElementWise(g, on, st) == After(st, RenderElementWise(g, on, st.context.Count(), st.context.frames))
  {
    var q := Statement(lr.text, rr.text);
    var w := WriteOperator(g.writer, ElementWiseAssign, [lr.text]);
    var d := st.definitions + (rr.definitions + lr.definitions);
    assert TileElementWise(g, on, st) == Ok(TileState(st.context.Push(w), d + [q]));
    assert RenderElementWise(g, on, st.context.Count(), st.context.frames)
        == Ok(Rendered(w, rr.definitions + lr.definitions + [q]));
    AppendAssoc(st.definitions, rr.definitions + lr.definitions, [q]);
  }

  lemma {:induction false} SubscriptRenders(g: Setup, on: Node, st: TileState)
    requires on.OpNode? && on.op == Index && Full(on)
    ensures TileSubscript(g, on, st) == After(st, RenderSubscript(g, on, st.context.Count(), st.context.frames))
    decreases on, 1
  {
    if Index in g.writer.operatorTemplate {
      PairRenders(g, on, st);
      var b := RenderBoth(g, on, st.context.Count(), st.context.frames);
      if b.Ok? {
        SubscriptRendersOk(g, on, st, b.value.0, b.value.1);
      }
    }
  }

  lemma SubscriptRendersOk(g: Setup, on: Node, st: TileState, lr: Rendered, rr: Rendered)
    requires on.OpNode? && on.op == Index && Full(on) && Index in g.writer.operatorTemplate
    requires RenderBoth(g, on, st.context.Count(), st.context.frames) == Ok((lr, rr))
    requires VisitPair(g, on, st) == Ok((lr.text, rr.text, TileState(st.context, st.definitions + (rr.definitions + lr.definitions))))
    ensures TileSubscript(g, on, st) == After(st, RenderSubscript(g, on, st.context.Count(), st.context.frames))
  {
  }

  // ---- Properties of the reference rendering ----------------------------------------

  /** The renderings an operator node's own rendering is built from, in which the writer
      has its template. */
  lemma InternalParts(g: Setup, on: Node, depth: nat, frames: seq<string>)
    requires on.OpNode? && Full(on) && RenderInternal(g, on, depth, frames).Ok?
    ensures on.op in g.writer.operatorTemplate
    ensures var inner := frames + [g.writer.operatorTemplate[on.op]];
      var x := RenderInternal(g, on, depth, frames).value;
      (on.op != ElementWiseAssign && RenderChildren(g, on, depth, inner).Ok? &&
       x.definitions == RenderChildren(g, on, depth, inner).value.0.definitions + RenderChildren(g, on, depth, inner).value.1.definitions) ||
      (on.op != ElementWiseAssign && RenderBoth(g, on, depth, frames).Ok? &&
       x.definitions == RenderBoth(g, on, depth, frames).value.1.definitions + RenderBoth(g, on, depth, frames).value.0.definitions) ||
      (on.op == ElementWiseAssign && RenderBoth(g, on, depth, frames).Ok? &&
       x.definitions == RenderBoth(g, on, depth, frames).value.1.definitions + RenderBoth(g, on, depth, frames).value.0.definitions
                        + [Statement(RenderBoth(g, on, depth, frames).value.0.text, RenderBoth(g, on, depth, frames).value.1.text)])
  {
    if on.op == ElementWiseAssign {
      assert RenderElementWise(g, on, depth, frames).Ok?;
    } else if on.op == Index && depth <= 1 && IsOpStart(g.writer, frames, Assign) == Ok(true) {
      assert RenderBase(g, on, depth, frames).Ok?;
    } else if on.op == Index {
      assert RenderSubscript(g, on, depth, frames).Ok?;
    } else {
      assert RenderBase(g, on, depth, frames).Ok?;
    }
  }

  /** A tree renders only if the writer has a template for every operator in it. */
  lemma {:induction false} RenderTemplated(g: Setup, n: Node, depth: nat, frames: seq<string>)
    requires Full(n)
    ensures TileRender(g, n, depth, frames).Ok? ==> Ops(n) <= g.writer.operatorTemplate.Keys
    decreases n
  {
    if n.OpNode? && TileRender(g, n, depth, frames).Ok? {
      InternalParts(g, n, depth, frames);
      var inner := frames + [g.writer.operatorTemplate[n.op]];
      RenderTemplated(g, n.left.value, depth, inner);
      RenderTemplated(g, n.right.value, depth, inner);
      RenderTemplated(g, n.right.value, depth + 1, inner);
    }
  }

  /** A rendering queues one definition per element-wise assignment in the tree. */
  lemma {:induction false} RenderDefinitionCount(g: Setup, n: Node, depth: nat, frames: seq<string>)
    requires Full(n)
    ensures TileRender(g, n, depth, frames).Ok? ==>
      |TileRender(g, n, depth, frames).value.definitions| == CountOp(ElementWiseAssign, n)
    decreases n
  {
    if n.OpNode? && TileRender(g, n, depth, frames).Ok? {
      InternalParts(g, n, depth, frames);
      var inner := frames + [g.writer.operatorTemplate[n.op]];
      var l, r := n.left.value, n.right.value;
      RenderDefinitionCount(g, l, depth, inner);
      RenderDefinitionCount(g, r, depth, inner);
      RenderDefinitionCount(g, r, depth + 1, inner);
      assert CountOp(ElementWiseAssign, n)
          == (if n.op == ElementWiseAssign then 1 else 0) + CountOp(ElementWiseAssign, l) + CountOp(ElementWiseAssign, r);
      if RenderChildren(g, n, depth, inner).Ok? {
        assert RenderChildren(g, n, depth, inner).value
            == (TileRender(g, l, depth, inner).value, TileRender(g, r, depth + 1, inner).value);
      }
      if RenderBoth(g, n, depth, frames).Ok? {
        assert RenderBoth(g, n, depth, frames).value
            == (TileRender(g, l, depth, inner).value, TileRender(g, r, depth, inner).value);
      }
    }
  }

  /** No rendering fails for the number of fragments; that check is made once, at the end. */
  lemma {:induction false} RenderNeverCounts(g: Setup, n: Node, depth: nat, frames: seq<string>)
    requires Full(n)
    ensures TileRender(g, n, depth, frames).Err? ==> !TileRender(g, n, depth, frames).error.ContextCount?
    decreases n
  {
    if n.OpNode? && n.op !in g.writer.operatorTemplate {
      assert TileRender(g, n, depth, frames) == RenderInternal(g, n, depth, frames);
      if n.op == ElementWiseAssign {
        assert RenderElementWise(g, n, depth, frames) == Err(NoTemplate(n.op));
      } else if n.op == Index {
        assert RenderBase(g, n, depth, frames) == Err(NoTemplate(n.op));
        assert RenderSubscript(g, n, depth, frames) == Err(NoTemplate(n.op));
        var start := IsOpStart(g.writer, frames, Assign);
        assert start.Err? ==> !start.error.ContextCount?;
      } else {
        assert RenderBase(g, n, depth, frames) == Err(NoTemplate(n.op));
      }
    } else if n.OpNode? {
      var inner := frames + [g.writer.operatorTemplate[n.op]];
      RenderNeverCounts(g, n.left.value, depth, inner);
      RenderNeverCounts(g, n.right.value, depth, inner);
      RenderNeverCounts(g, n.right.value, depth + 1, inner);
      assert TileRender(g, n, depth, frames) == RenderInternal(g, n, depth, frames);
      assert RenderChildren(g, n, depth, inner).Err? ==> !RenderChildren(g, n, depth, inner).error.ContextCount?;
      assert RenderBoth(g, n, depth, frames).Err? ==> !RenderBoth(g, n, depth, frames).error.ContextCount?;
      if n.op == ElementWiseAssign {
        assert RenderInternal(g, n, depth, frames) == RenderElementWise(g, n, depth, frames);
      } else if n.op == Index {
        var x := RenderSubscript(g, n, depth, frames);
        assert x.Err? ==> !x.error.ContextCount?;
        var b := RenderBase(g, n, depth, frames);
        assert b.Err? ==> !b.error.ContextCount?;
        var start := IsOpStart(g.writer, frames, Assign);
        assert start.Err? ==> !start.error.ContextCount?;
      } else {
        assert RenderInternal(g, n, depth, frames) == RenderBase(g, n, depth, frames);
      }
    }
  }

  /** The Tile writer has no element-wise assignment template, so with it nothing is queued. */
  lemma TileWriterQueuesNothing(g: Setup, n: Node, depth: nat, frames: seq<string>)
    requires Full(n) && g.writer == TileWriting.Writer
    ensures TileRender(g, n, depth, frames).Ok? ==> TileRender(g, n, depth, frames).value.definitions == []
  {
    if TileRender(g, n, depth, frames).Ok? {
      RenderTemplated(g, n, depth, frames);
      assert ElementWiseAssign !in TileWriting.OperatorTemplate;
      CountOpAbsent(ElementWiseAssign, n);
      RenderDefinitionCount(g, n, depth, frames);
    }
  }

  /** With the Tile writer, a subscript of an input tensor that is not at the start of an
      assignment carries the tensor's dimension variable after its index list. */
  lemma SubscriptOfInput(g: Setup, t: ValueNode, y: Node, depth: nat, frames: seq<string>, yr: Rendered)
    requires g.writer == TileWriting.Writer && Full(y)
    requires t.kind == TENSOR && t in g.tree.inputVariableNodes && t in g.dims
    requires depth > 1 || (frames != [] && frames[|frames| - 1] != TileWriting.AssignTemplate)
    requires TileRender(g, y, depth, frames + [TileWriting.IndexTemplate]) == Ok(yr)
    ensures RenderInternal(g, Binary(Index, Leaf(t), y), depth, frames)
         == Ok(Rendered(Upper(t.name) + "[" + (yr.text + ":" + g.dims[t]) + "]", yr.definitions))
  {
    var on := Binary(Index, Leaf(t), y);
    TileWriting.ValueTextCasing(t);
    assert TileRender(g, Leaf(t), depth, frames + [TileWriting.IndexTemplate]) == Ok(Rendered(Upper(t.name), []));
    assert RenderBoth(g, on, depth, frames) == Ok((Rendered(Upper(t.name), []), yr));
    assert IndexedTensor(on.left) == Ok(t);
    TileWriting.WriteIndex(Upper(t.name), yr.text + ":" + g.dims[t]);
    assert SubscriptText(g, t, Upper(t.name), yr.text) == Ok(Upper(t.name) + "[" + (yr.text + ":" + g.dims[t]) + "]");
    assert yr.definitions + [] == yr.definitions;
    assert RenderInternal(g, on, depth, frames) == RenderSubscript(g, on, depth, frames);
  }

  /** A subscript of a tensor that is not an input carries no dimension variable. */
  lemma SubscriptOfNonInput(g: Setup, t: ValueNode, y: Node, depth: nat, frames: seq<string>, yr: Rendered)
    requires g.writer == TileWriting.Writer && Full(y)
    requires t.kind == TENSOR && t !in g.tree.inputVariableNodes
    requires depth > 1 || (frames != [] && frames[|frames| - 1] != TileWriting.AssignTemplate)
    requires TileRender(g, y, depth, frames + [TileWriting.IndexTemplate]) == Ok(yr)
    ensures RenderInternal(g, Binary(Index, Leaf(t), y), depth, frames)
         == Ok(Rendered(Upper(t.name) + "[" + yr.text + "]", yr.definitions))
  {
    var on := Binary(Index, Leaf(t), y);
    TileWriting.ValueTextCasing(t);
    assert TileRender(g, Leaf(t), depth, frames + [TileWriting.IndexTemplate]) == Ok(Rendered(Upper(t.name), []));
    assert RenderBoth(g, on, depth, frames) == Ok((Rendered(Upper(t.name), []), yr));
    assert IndexedTensor(on.left) == Ok(t);
    TileWriting.WriteIndex(Upper(t.name), yr.text);
    assert SubscriptText(g, t, Upper(t.name), yr.text) == Ok(Upper(t.name) + "[" + yr.text + "]");
    assert yr.definitions + [] == yr.definitions;
    assert RenderInternal(g, on, depth, frames) == RenderSubscript(g, on, depth, frames);
  }

  /** A subscript whose left child is a value leaf that is not a tensor fails. */
  lemma SubscriptOfNonTensor(g: Setup, t: ValueNode, y: Node, depth: nat, frames: seq<string>, yr: Rendered)
    requires g.writer == TileWriting.Writer && Full(y)
    requires t.kind != TENSOR
    requires depth > 1 || (frames != [] && frames[|frames| - 1] != TileWriting.AssignTemplate)
    requires TileRender(g, y, depth, frames + [TileWriting.IndexTemplate]) == Ok(yr)
    ensures RenderInternal(g, Binary(Index, Leaf(t), y), depth, frames) == Err(IndexLhsNotTensor)
  {
    var on := Binary(Index, Leaf(t), y);
    assert RenderBoth(g, on, depth, frames).Ok?;
    assert IndexedTensor(on.left) == Err(IndexLhsNotTensor);
    assert RenderInternal(g, on, depth, frames) == RenderSubscript(g, on, depth, frames);
  }

  /** A subscript that is a direct operand of an assignment at the top of the tree (at most one
      fragment on the context, the assignment's scope innermost) is rendered by the base
      visit, so even an input tensor gets no dimension variable. */
  lemma SubscriptAtAssignment(g: Setup, t: ValueNode, y: Node, depth: nat, frames: seq<string>, yr: Rendered)
    requires g.writer == TileWriting.Writer && Full(y) && t.kind == TENSOR
    requires depth <= 1 && frames != [] && frames[|frames| - 1] == TileWriting.AssignTemplate
    requires TileRender(g, y, depth + 1, frames + [TileWriting.IndexTemplate]) == Ok(yr)
    ensures RenderInternal(g, Binary(Index, Leaf(t), y), depth, frames)
         == Ok(Rendered(Upper(t.name) + "[" + yr.text + "]", yr.definitions))
  {
    var on := Binary(Index, Leaf(t), y);
    var inner := frames + [TileWriting.IndexTemplate];
    TileWriting.ValueTextCasing(t);
    assert IsOpStart(g.writer, frames, Assign) == Ok(true);
    assert RenderInternal(g, on, depth, frames) == RenderBase(g, on, depth, frames);
    assert TileRender(g, Leaf(t), depth, inner) == Ok(Rendered(Upper(t.name), []));
    assert RenderChildren(g, on, depth, inner) == Ok((Rendered(Upper(t.name), []), yr));
    assert Index !in TileWriting.NestedBinaryOperators;
    TileWriting.WriteIndex(Upper(t.name), yr.text);
    assert [] + yr.definitions == yr.definitions;
  }

  /** A subscript visited with no operator in progress and at most one fragment on the context
      fails: the start-of-assignment test peeks at an empty stack. */
  lemma SubscriptWithoutScope(g: Setup, on: Node, depth: nat)
    requires on.OpNode? && on.op == Index && Full(on) && depth <= 1
    ensures RenderInternal(g, on, depth, []) == Err(StackEmpty)
  {
  }

  // ---- Dimension variables ------------------------------------------------------------

  /** The base name with the counters 1..k appended in turn: "AN", "AN1", "AN12", .... */
  function Suffixed(base: string, k: nat): (r: string)
    ensures |r| >= |base| + k
  {
    if k == 0 then base else Suffixed(base, k - 1) + NatToString(k)
  }

  /** The length of the longest name in a set. */
  ghost function MaxLength(names: set<string>): (r: nat)
    ensures forall x :: x in names ==> |x| <= r
  {
    if names == {} then 0
    else
      var x :| x in names;
      var m := MaxLength(names - {x});
      if |x| > m then |x| else m
  }

  /** How many counters the candidate-name loop appends, starting from n, before the name is
      not among the names already taken. */
  function FreshCount(base: string, n: nat, taken: set<string>): nat
    decreases MaxLength(taken) + 1 - |Suffixed(base, n)|
  {
    if Suffixed(base, n) in taken then FreshCount(base, n + 1, taken) else n
  }

  /** The count is the first one from n whose name is free. */
  lemma {:induction false} FreshCountIsFirstFree(base: string, n: nat, taken: set<string>)
    ensures FreshCount(base, n, taken) >= n
    ensures Suffixed(base, FreshCount(base, n, taken)) !in taken
    ensures forall j :: n <= j < FreshCount(base, n, taken) ==> Suffixed(base, j) in taken
    decreases MaxLength(taken) + 1 - |Suffixed(base, n)|
  {
    if Suffixed(base, n) in taken {
      FreshCountIsFirstFree(base, n + 1, taken);
    }
  }

  /** While the candidate is taken, the next one is the same count's candidate with one
      more counter, strictly longer and still within the longest taken name's bound. */
  lemma FreshCountStep(base: string, n: nat, taken: set<string>)
    requires Suffixed(base, n) in taken
    ensures FreshCount(base, n + 1, taken) == FreshCount(base, n, taken)
    ensures Suffixed(base, n + 1) == Suffixed(base, n) + NatToString(n + 1)
    ensures |Suffixed(base, n)| <= MaxLength(taken)
    ensures |Suffixed(base, n)| < |Suffixed(base, n + 1)|
  {
  }

  /** A free candidate ends the count. */
  lemma FreshCountDone(base: string, n: nat, taken: set<string>)
    requires Suffixed(base, n) !in taken
    ensures FreshCount(base, n, taken) == n
  {
  }

  /** The dimension variable of each input: its label followed by "N", with counters appended
      while that name is already a value of the dictionary, upper-cased. Adding an input twice
      fails. */
  function DimensionNames(inputs: seq<ValueNode>): (r: Result<map<ValueNode, string>, GenError>)
    ensures r.Err? ==> r.error.DuplicateKey? && r.error.node in inputs
  {
    if inputs == [] then Ok(map[])
    else
      var m :- DimensionNames(inputs[..|inputs| - 1]);
      var v := inputs[|inputs| - 1];
      var base := v.name + "N";
      var name := Suffixed(base, FreshCount(base, 0, m.Values));
      if v in m then Err(DuplicateKey(v)) else Ok(m[v := Upper(name)])
  }

  /** A dimension variable of v is its label and "N", maybe with counters, upper-cased. */
  ghost predicate IsDimensionName(v: ValueNode, s: string)
  {
    exists k: nat :: s == Upper(Suffixed(v.name + "N", k))
  }

  predicate Distinct(inputs: seq<ValueNode>)
  {
    forall i, j :: 0 <= i < j < |inputs| ==> inputs[i] != inputs[j]
  }

  /** Naming succeeds exactly when no input occurs twice. */
  lemma {:induction false} DimensionNamesOkIffDistinct(inputs: seq<ValueNode>)
    ensures DimensionNames(inputs).Ok? <==> Distinct(inputs)
  {
    if inputs != [] {
      var front := inputs[..|inputs| - 1];
      var v := inputs[|inputs| - 1];
      DimensionNamesOkIffDistinct(front);
      DimensionNamesKeys(front);
      assert forall i :: 0 <= i < |front| ==> front[i] == inputs[i];
      if DimensionNames(front).Ok? {
        if v in DimensionNames(front).value {
          var i :| 0 <= i < |front| && front[i] == v;
          assert inputs[i] == inputs[|inputs| - 1];
        } else {
          assert forall i :: 0 <= i < |front| ==> front[i] != v;
        }
      } else {
        var i, j :| 0 <= i < j < |front| && front[i] == front[j];
        assert inputs[i] == inputs[j];
      }
    }
  }

  /** On success every input, and nothing else, has a dimension variable. */
  lemma {:induction false} DimensionNamesKeys(inputs: seq<ValueNode>)
    ensures DimensionNames(inputs).Ok? ==> DimensionNames(inputs).value.Keys == set v | v in inputs
  {
    if inputs != [] {
      var front := inputs[..|inputs| - 1];
      var v := inputs[|inputs| - 1];
      DimensionNamesKeys(front);
      assert inputs == front + [v];
      assert (set u | u in inputs) == (set u | u in front) + {v};
    }
  }

  /** On success every dimension variable has the required form. */
  lemma {:induction false} DimensionNamesForm(inputs: seq<ValueNode>)
    ensures DimensionNames(inputs).Ok? ==>
      forall v :: v in DimensionNames(inputs).value ==> IsDimensionName(v, DimensionNames(inputs).value[v])
  {
    if inputs != [] {
      var front := inputs[..|inputs| - 1];
      var v := inputs[|inputs| - 1];
      DimensionNamesForm(front);
      if DimensionNames(front).Ok? {
        var m := DimensionNames(front).value;
        var base := v.name + "N";
        var k := FreshCount(base, 0, m.Values);
        assert IsDimensionName(v, Upper(Suffixed(base, k)));
      }
    }
  }

  /** Once a prefix of the inputs fails, the whole list fails the same way. */
  lemma {:induction false} DimensionNamesPrefixErr(inputs: seq<ValueNode>, k: nat)
    requires k <= |inputs| && DimensionNames(inputs[..k]).Err?
    ensures DimensionNames(inputs) == DimensionNames(inputs[..k])
    decreases |inputs|
  {
    if k < |inputs| {
      var front := inputs[..|inputs| - 1];
      assert front[..k] == inputs[..k];
      DimensionNamesPrefixErr(front, k);
    } else {
      assert inputs[..k] == inputs;
    }
  }

  /** One more input, not yet named, gets the first free candidate, upper-cased. */
  lemma DimensionNamesStep(front: seq<ValueNode>, v: ValueNode, m: map<ValueNode, string>)
    requires DimensionNames(front) == Ok(m) && v !in m
    ensures DimensionNames(front + [v])
         == Ok(m[v := Upper(Suffixed(v.name + "N", FreshCount(v.name + "N", 0, m.Values)))])
  {
    assert (front + [v])[..|front|] == front;
  }

  lemma ValuesAdd(m: map<ValueNode, string>, k: ValueNode, s: string)
    requires k !in m
    ensures m[k := s].Values == m.Values + {s}
  {
    forall x | x in m.Values ensures x in m[k := s].Values {
      var u :| u in m && m[u] == x;
      assert m[k := s][u] == x;
    }
    assert m[k := s][k] == s;
  }

  /** Two inputs whose labels differ only in case get the same dimension variable, since the
      candidate is compared with the upper-cased names already taken. */
  lemma CaseCollision()
    ensures DimensionNames([ValueNode(TENSOR, "B"), ValueNode(TENSOR, "b")])
         == Ok(map[ValueNode(TENSOR, "B") := "BN", ValueNode(TENSOR, "b") := "BN"])
  {
    var b1, b2 := ValueNode(TENSOR, "B"), ValueNode(TENSOR, "b");
    assert Suffixed("BN", 0) == "BN" && Suffixed("bN", 0) == "bN";
    var m0: map<ValueNode, string> := map[];
    assert FreshCount("BN", 0, m0.Values) == 0;
    assert Upper("BN") == "BN" && Upper("bN") == "BN";
    assert [] + [b1] == [b1];
    DimensionNamesStep([], b1, m0);
    var m1 := map[b1 := "BN"];
    ValuesAdd(m0, b1, "BN");
    assert FreshCount("bN", 0, m1.Values) == 0;
    assert [b1] + [b2] == [b1, b2];
    DimensionNamesStep([b1], b2, m1);
  }

  /** A second input labelled "A" gets "AN1". */
  lemma SecondCounter()
    ensures DimensionNames([ValueNode(TENSOR, "A"), ValueNode(SCALAR, "A")])
         == Ok(map[ValueNode(TENSOR, "A") := "AN", ValueNode(SCALAR, "A") := "AN1"])
  {
    var x, y := ValueNode(TENSOR, "A"), ValueNode(SCALAR, "A");
    assert NatToString(1) == "1";
    assert Suffixed("AN", 0) == "AN" && Suffixed("AN", 1) == "AN1";
    assert Upper("AN") == "AN" && Upper("AN1") == "AN1";
    var m0: map<ValueNode, string> := map[];
    assert FreshCount("AN", 0, m0.Values) == 0;
    assert [] + [x] == [x];
    DimensionNamesStep([], x, m0);
    var m1 := map[x := "AN"];
    ValuesAdd(m0, x, "AN");
    assert FreshCount("AN", 1, {"AN"}) == 1;
    assert FreshCount("AN", 0, m1.Values) == 1;
    assert [x] + [y] == [x, y];
    DimensionNamesStep([x], y, m1);
  }

  /** With "AN" and "AN1" taken, the candidate loop appends two counters. */
  lemma ThirdCandidate()
    ensures Upper(Suffixed("AN", FreshCount("AN", 0, {"AN", "AN1"}))) == "AN12"
  {
    assert NatToString(1) == "1" && NatToString(2) == "2";
    assert Suffixed("AN", 0) == "AN" && Suffixed("AN", 1) == "AN1" && Suffixed("AN", 2) == "AN12";
    assert FreshCount("AN", 2, {"AN", "AN1"}) == 2;
    assert FreshCount("AN", 0, {"AN", "AN1"}) == 2;
    assert Upper("AN12") == "AN12";
  }

  /** Counters accumulate: a third input labelled "A" gets "AN12". */
  lemma CountersAccumulate()
    ensures DimensionNames([ValueNode(TENSOR, "A"), ValueNode(SCALAR, "A"), ValueNode(CONSTANT, "A")])
         == Ok(map[ValueNode(TENSOR, "A") := "AN", ValueNode(SCALAR, "A") := "AN1", ValueNode(CONSTANT, "A") := "AN12"])
  {
    var x, y, z := ValueNode(TENSOR, "A"), ValueNode(SCALAR, "A"), ValueNode(CONSTANT, "A");
    SecondCounter();
    var m2 := map[x := "AN", y := "AN1"];
    ValuesAdd(map[x := "AN"], y, "AN1");
    assert map[x := "AN"].Values == {"AN"} by {
      assert map[x := "AN"][x] == "AN";
    }
    assert m2.Values == {"AN", "AN1"};
    ThirdCandidate();
    assert [x, y] + [z] == [x, y, z];
    DimensionNamesStep([x, y], z, m2);
  }
}
