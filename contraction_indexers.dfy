/** The indexers of the non-generic tensor that define it by a summation: the getter is the
    same access as the other indexers', the setter checks the slot and stores the value as a
    contraction, taking a method call as the contraction it is and summing anything else. */
module ContractionIndexers {
  import opened Wrappers
  import opened HostExpressions
  import opened Indexing
  import opened Tensors

  /** The contraction stored for a value: the value itself when its expression is a method
      call, otherwise the summation of the value. */
  function Wrap(value: TensorIndexExpression): (r: Contraction)
    ensures r.value == value
    ensures r.AsContraction? <==> NodeType(value.linqExpression) == Call
    ensures r.SigmaSum? <==> NodeType(value.linqExpression) != Call
  {
    if NodeType(value.linqExpression) == Call then AsContraction(value) else SigmaSum(value)
  }

  /** The setter by one to eight indices: after the guard, a new index set of the tensor and
      exactly the given indices, with the wrapped value. */
  method Set(t: Tensor, indices: seq<Index>, value: TensorIndexExpression) returns (r: Outcome<NotationError>)
    requires 1 <= |indices| <= 8
    modifies t
    ensures r == old(t.ThrowIfAlreadyAssigned())
    ensures r.Fail? ==> t.definitionIndexSet == old(t.definitionIndexSet) && t.definition == old(t.definition)
    ensures r.Pass? ==> t.definitionIndexSet != null && fresh(t.definitionIndexSet) && t.definitionIndexSet.Valid()
    ensures r.Pass? ==> t.definitionIndexSet.tensor == Some(t.Term())
    ensures r.Pass? ==> t.definitionIndexSet.indices == SortedIndices(indices)
    ensures r.Pass? ==> t.definition == Some(ContractionDefinition(Wrap(value)))
  {
    r := t.ThrowIfAlreadyAssigned();
    if r.Fail? {
      return;
    }
    var s := new IndexSet.ForTensor(t.Term(), indices);
    if NodeType(value.linqExpression) == Call {
      t.definitionIndexSet, t.definition := s, Some(ContractionDefinition(AsContraction(value)));
    } else {
      t.definitionIndexSet, t.definition := s, Some(ContractionDefinition(SigmaSum(value)));
    }
  }
}
