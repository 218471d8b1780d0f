/** The indexers of the non-generic tensor that always define it by a contraction: the getter
    builds an element access into an array holding the tensor itself, the setter checks the
    slot and stores a contraction of the value over a new index set of the tensor. */
module TensorIndexers {
  import opened Wrappers
  import opened HostExpressions
  import opened ExpressionExtensions
  import opened Indexing
  import opened Tensors

  /** The constant the getters index into: an array of one axis per index holding exactly the
      tensor. */
  function Wrapper(t: Tensor, rank: nat): (r: Expr)
    ensures IsArrayConstant(r, TensorTypeName) && r.value == ArrayValue([t.Term()])
  {
    ConstantExpr(ArrayOf(TensorTypeName, rank), ArrayValue([t.Term()]))
  }

  /** The element access of the getters: into the wrapper, with one integer parameter per
      index, named after it, in argument order. */
  function Access(t: Tensor, indices: seq<Index>): Expr
  {
    OperationExpr(ExpressionType.Index, TensorType, [Wrapper(t, |indices|)] + IntParameters(Names(indices)))
  }

  /** The getter by one to eight indices: the rank guard, then the access. */
  function Get(t: Tensor, indices: seq<Index>): (r: Result<TensorIndexExpression, NotationError>)
    requires 1 <= |indices| <= 8
    ensures r.Ok? <==> t.ThrowIfIndicesExceedRank(|indices|).Pass?
    ensures r.Ok? <==> t.Rank() >= |indices|
    ensures r.Err? ==> r.error == IndicesExceedRank
    ensures r.Ok? ==> r.value.linqExpression == Access(t, indices)
  {
    if t.ThrowIfIndicesExceedRank(|indices|).Fail? then Err(IndicesExceedRank)
    else Ok(TensorIndexExpression(Access(t, indices)))
  }

  /** The setter by one to eight indices: after the guard, a new index set of the tensor and
      exactly the given indices, and a contraction of the value over that same set, defining
      the tensor. */
  method Set(t: Tensor, indices: seq<Index>, value: TensorIndexExpression) returns (r: Outcome<NotationError>)
    requires 1 <= |indices| <= 8
    modifies t
    ensures r == old(t.ThrowIfAlreadyAssigned())
    ensures r.Fail? ==> t.definitionIndexSet == old(t.definitionIndexSet) && t.definition == old(t.definition)
    ensures r.Pass? ==> t.definitionIndexSet != null && fresh(t.definitionIndexSet) && t.definitionIndexSet.Valid()
    ensures r.Pass? ==> t.definitionIndexSet.tensor == Some(t.Term())
    ensures r.Pass? ==> t.definitionIndexSet.indices == SortedIndices(indices)
    ensures r.Pass? ==> t.definition == Some(ContractionDefinition(TensorContraction(value, t.Term(), t.definitionIndexSet)))
  {
    r := t.ThrowIfAlreadyAssigned();
    if r.Fail? {
      return;
    }
    var s := new IndexSet.ForTensor(t.Term(), indices);
    var tc := TensorContraction(value, t.Term(), s);
    t.definitionIndexSet, t.definition := s, Some(ContractionDefinition(tc));
  }

  /** The objects the indices stand for, in order. */
  function Terms(indices: seq<Index>): (r: seq<TermRef>)
    ensures |r| == |indices| && forall k :: 0 <= k < |r| ==> r[k] == indices[k].Term()
  {
    seq(|indices|, k requires 0 <= k < |indices| => indices[k].Term())
  }

  /** A registry in which every index's name is bound to that index, as an Index. */
  predicate Registers(registry: map<string, RegisteredTerm>, indices: seq<Index>)
  {
    forall k :: 0 <= k < |indices| ==>
      indices[k].name in registry && registry[indices[k].name].term == indices[k].Term()
      && IndexTypeName in registry[indices[k].name].types
  }

  /** The access holds no direct tensor constant. */
  lemma AccessDirectValues(t: Tensor, indices: seq<Index>)
    ensures DirectValues(Nodes(Access(t, indices)), TensorTypeName) == Ok([])
  {
    var w := Wrapper(t, |indices|);
    var names := Names(indices);
    var ps := IntParameters(names);
    var e := Access(t, indices);
    AccessNodes(TensorType, w, names);
    ParameterConstants(names, TensorTypeName);
    DirectValuesAppend([e], [w] + ps, TensorTypeName);
    DirectValuesAppend([w], ps, TensorTypeName);
    assert [e][..0] == [] && [w][..0] == [];
    assert DirectValues([e], TensorTypeName) == Ok([]);
    assert DirectValues([w], TensorTypeName) == Ok([]);
  }

  /** The access's only tensor array is the wrapper, whose first element is the tensor. */
  lemma AccessArrayFirsts(t: Tensor, indices: seq<Index>)
    ensures ArrayFirsts(Nodes(Access(t, indices)), TensorTypeName) == Ok([t.Term()])
  {
    var w := Wrapper(t, |indices|);
    var names := Names(indices);
    var ps := IntParameters(names);
    var e := Access(t, indices);
    AccessNodes(TensorType, w, names);
    ParameterConstants(names, TensorTypeName);
    ArrayFirstsAppend([e], [w] + ps, TensorTypeName);
    ArrayFirstsAppend([w], ps, TensorTypeName);
    assert [e][..0] == [] && [w][..0] == [];
    assert ArrayFirsts([e], TensorTypeName) == Ok([]);
    assert ArrayFirsts([w], TensorTypeName) == Ok([] + [t.Term()]);
    assert [] + [t.Term()] == [t.Term()] && [t.Term()] + [] == [t.Term()];
  }

  /** The access holds exactly the tensor it was built for. */
  lemma AccessHoldsTensor(t: Tensor, indices: seq<Index>)
    ensures GetConstants(Access(t, indices), TensorTypeName) == Ok([t.Term()])
  {
    AccessDirectValues(t, indices);
    AccessArrayFirsts(t, indices);
    assert Distinct([t.Term()]) == [t.Term()];
    assert Distinct<TermRef>([]) == [];
  }

  /** With every index registered under its name, the access's index parameters are the
      indices, in argument order and with repeats kept. */
  lemma AccessParameters(t: Tensor, indices: seq<Index>, registry: map<string, RegisteredTerm>)
    requires Registers(registry, indices)
    ensures GetParameters(Access(t, indices), registry, IndexTypeName) == Terms(indices)
  {
    var w := Wrapper(t, |indices|);
    var names := Names(indices);
    var ps := IntParameters(names);
    var e := Access(t, indices);
    AccessNodes(TensorType, w, names);
    ParametersOfAppend([e], [w] + ps, registry, IndexTypeName);
    ParametersOfAppend([w], ps, registry, IndexTypeName);
    assert [e][..0] == [] && [w][..0] == [];
    assert ParametersOf([e], registry, IndexTypeName) == [];
    assert ParametersOf([w], registry, IndexTypeName) == [];
    RegisteredParameters(indices, registry);
  }

  /** The parameters named after registered indices name those indices. */
  lemma {:induction false} RegisteredParameters(indices: seq<Index>, registry: map<string, RegisteredTerm>)
    requires Registers(registry, indices)
    ensures ParametersOf(IntParameters(Names(indices)), registry, IndexTypeName) == Terms(indices)
    decreases |indices|
  {
    if indices != [] {
      var front := indices[..|indices| - 1];
      RegisteredParameters(front, registry);
      assert IntParameters(Names(indices))[..|indices| - 1] == IntParameters(Names(front));
      assert Terms(indices) == Terms(front) + [indices[|indices| - 1].Term()];
    }
  }
}
