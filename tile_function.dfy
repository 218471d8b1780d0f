/** What the Tile generator produces for a whole tree: the dimension variables, the visit
    of the root, the check that one fragment is left, and the function text whose prologue
    lists the parameters and the result. */
module TileFunction {
  import opened Wrappers
  import opened Trees
  import opened Text
  import opened Writers
  import opened Generation
  import opened TileGeneration
  import TileWriting

  /** The upper-cased labels of the inputs that do not name the parent of one of the tree's
      index sets, in input order. */
  function Parameters(inputs: seq<ValueNode>, parents: seq<string>): (r: seq<string>)
    ensures |r| <= |inputs|
  {
    if inputs == [] then []
    else
      var v := inputs[|inputs| - 1];
      Parameters(inputs[..|inputs| - 1], parents) + (if v.name in parents then [] else [Upper(v.name)])
  }

  /** A parameter is exactly the upper-cased label of an input that is not an index set's
      parent. */
  lemma {:induction false} ParametersMembers(inputs: seq<ValueNode>, parents: seq<string>, x: string)
    ensures x in Parameters(inputs, parents) <==>
      exists v :: v in inputs && v.name !in parents && x == Upper(v.name)
  {
    if inputs != [] {
      var front, v := inputs[..|inputs| - 1], inputs[|inputs| - 1];
      ParametersMembers(front, parents, x);
      assert inputs == front + [v];
      if x in Parameters(inputs, parents) && x !in Parameters(front, parents) {
        assert v in inputs && v.name !in parents && x == Upper(v.name);
      }
      if exists u :: u in inputs && u.name !in parents && x == Upper(u.name) {
        var u :| u in inputs && u.name !in parents && x == Upper(u.name);
        if u != v {
          assert u in front;
        }
      }
    }
  }

  /** Every name followed by ", ", as the prologue loop appends them. */
  function ParameterList(names: seq<string>): string
  {
    if names == [] then "" else ParameterList(names[..|names| - 1]) + names[|names| - 1] + ", "
  }

  /** One more input adds its upper-cased label unless it names an index set's parent. */
  lemma ParametersStep(inputs: seq<ValueNode>, parents: seq<string>, k: nat)
    requires k < |inputs|
    ensures Parameters(inputs[..k + 1], parents)
         == Parameters(inputs[..k], parents) + (if inputs[k].name in parents then [] else [Upper(inputs[k].name)])
  {
    assert inputs[..k + 1][..k] == inputs[..k];
  }

  /** Appending one parameter appends it and ", " to whatever precedes the list. */
  lemma ParameterListAppend(prefix: string, names: seq<string>, u: string)
    ensures prefix + ParameterList(names + [u]) == prefix + ParameterList(names) + u + ", "
  {
    assert (names + [u])[..|names|] == names;
    AppendAssoc(prefix, ParameterList(names), u + ", ");
    AppendAssoc(prefix + ParameterList(names), u, ", ");
    AppendAssoc(ParameterList(names), u, ", ");
  }

  /** The names separated by ", ". */
  function Join(names: seq<string>): string
  {
    if names == [] then ""
    else if |names| == 1 then names[0]
    else Join(names[..|names| - 1]) + ", " + names[|names| - 1]
  }

  /** The appended list of a nonempty name list is the joined names and one trailing ", ". */
  lemma {:induction false} ParameterListJoin(names: seq<string>)
    requires names != []
    ensures ParameterList(names) == Join(names) + ", "
  {
    var front := names[..|names| - 1];
    if front != [] {
      ParameterListJoin(front);
    }
  }

  /** The result part of the prologue: the output's upper-cased label in parentheses, or
      nothing when the output names the parent of one of the tree's index sets. */
  function Returned(tree: ExpressionTree): string
  {
    if tree.outputNode.name in tree.indexSetParentNames then "" else "(" + Upper(tree.outputNode.name) + ")"
  }

  /** The prologue as the string builder assembles it: "function(", each parameter and ", ",
      the last two characters removed whatever they are, ") -> ", the result, " { ". */
  function Prologue(tree: ExpressionTree): string
  {
    var p := "function(" + ParameterList(Parameters(tree.inputVariableNodes, tree.indexSetParentNames));
    p[..|p| - 2] + ") -> " + Returned(tree) + " { "
  }

  /** The function text: the prologue, the generated body, a closing brace. */
  function FunctionText(tree: ExpressionTree, body: string): string
  {
    Prologue(tree) + body + "}"
  }

  /** With at least one parameter the function text is "function(P1, P2, ...) -> (OUT) { body}". */
  lemma FunctionTextShape(tree: ExpressionTree, body: string)
    requires Parameters(tree.inputVariableNodes, tree.indexSetParentNames) != []
    ensures FunctionText(tree, body)
         == "function(" + Join(Parameters(tree.inputVariableNodes, tree.indexSetParentNames)) + ") -> "
            + Returned(tree) + " { " + body + "}"
  {
    var j := Join(Parameters(tree.inputVariableNodes, tree.indexSetParentNames));
    ParameterListJoin(Parameters(tree.inputVariableNodes, tree.indexSetParentNames));
    var p := "function(" + (j + ", ");
    assert p[..|p| - 2] == "function(" + j;
  }

  /** With no parameter the removal cuts into "function(" itself. */
  lemma NoParameters(tree: ExpressionTree, body: string)
    requires Parameters(tree.inputVariableNodes, tree.indexSetParentNames) == []
    ensures FunctionText(tree, body) == "functio) -> " + Returned(tree) + " { " + body + "}"
  {
    assert ("function(" + "")[..7] == "functio";
  }

  // ---- Whole generation -------------------------------------------------------------

  /** What a successful generation leaves: the dimension variables, the queued variable
      definitions, the generated body text and the function text. */
  datatype Generated = Generated(
    dims: map<ValueNode, string>,
    definitions: seq<string>,
    text: string,
    functionText: string)

  /** The setup of the tile visit for a tree with the given dimension variables. */
  function TileSetup(tree: ExpressionTree, dims: map<ValueNode, string>): Setup
  {
    Setup(TileWriting.Writer, tree, dims)
  }

  /** The Tile generator on a tree: name the dimension variables, visit the root from an empty
      context with no definitions queued, check that one fragment is left, write the function. */
  function Generate(tree: ExpressionTree): Result<Generated, GenError>
  {
    var dims :- DimensionNames(tree.inputVariableNodes);
    var st :- TileVisit(TileSetup(tree, dims), tree.root, TileState(EmptyContext, []));
    if st.context.Count() != 1 then Err(ContextCount(st.context.Count()))
    else Ok(Generated(dims, st.definitions, st.context.fragments[0], FunctionText(tree, st.context.fragments[0])))
  }

  /** For a full tree the generation is the reference rendering of the root, which cannot
      leave a wrong number of fragments. */
  lemma GenerateFull(tree: ExpressionTree)
    requires Full(tree.root)
    ensures Generate(tree) ==
      match DimensionNames(tree.inputVariableNodes)
      case Err(e) => Err(e)
      case Ok(dims) =>
        match TileRender(TileSetup(tree, dims), tree.root, 0, [])
        case Err(e) => Err(e)
        case Ok(x) => Ok(Generated(dims, x.definitions, x.text, FunctionText(tree, x.text)))
  {
    var d := DimensionNames(tree.inputVariableNodes);
    if d.Ok? {
      var st0 := TileState(EmptyContext, []);
      VisitRenders(TileSetup(tree, d.value), tree.root, st0);
      var x := TileRender(TileSetup(tree, d.value), tree.root, 0, []);
      if x.Ok? {
        assert [] + x.value.definitions == x.value.definitions;
        assert EmptyContext.Push(x.value.text).fragments == [x.value.text];
      }
    }
  }

  /** A full tree generates exactly when its inputs are distinct and its rendering succeeds;
      the Tile generator then queues no definitions and the text is the rendering. */
  lemma GenerateFullOk(tree: ExpressionTree)
    requires Full(tree.root)
    ensures Generate(tree).Ok? <==>
      Distinct(tree.inputVariableNodes) && DimensionNames(tree.inputVariableNodes).Ok? &&
      TileRender(TileSetup(tree, DimensionNames(tree.inputVariableNodes).value), tree.root, 0, []).Ok?
    ensures Generate(tree).Ok? ==>
      Generate(tree).value.definitions == [] &&
      Generate(tree).value.text == TileRender(TileSetup(tree, Generate(tree).value.dims), tree.root, 0, []).value.text &&
      Generate(tree).value.functionText == FunctionText(tree, Generate(tree).value.text)
    ensures Generate(tree).Err? ==> !Generate(tree).error.ContextCount?
  {
    GenerateFull(tree);
    DimensionNamesOkIffDistinct(tree.inputVariableNodes);
    var d := DimensionNames(tree.inputVariableNodes);
    if d.Ok? {
      TileWriterQueuesNothing(TileSetup(tree, d.value), tree.root, 0, []);
      RenderNeverCounts(TileSetup(tree, d.value), tree.root, 0, []);
    }
  }
}
