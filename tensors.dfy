/** Tensors of the notation: a name, the lengths of the axes, and a definition slot that can
    be written once. The indexer getters build host expressions for an indexed tensor; the
    setters check and then fill the slot. */
module Tensors {
  import opened Wrappers
  import opened HostExpressions
  import opened ExpressionExtensions
  import TE = TensorExpressions
  import opened Indexing

  /** The contraction an indexer setter stores. */
  datatype Contraction =
    /** A contraction of the value over the index set, defining the tensor. */
    | TensorContraction(value: TensorIndexExpression, tensor: TermRef, indexSet: IndexSet)
    /** A value that is a method call, taken as the contraction it already is. */
    | AsContraction(value: TensorIndexExpression)
    /** A value wrapped in a summation over its free indices. */
    | SigmaSum(value: TensorIndexExpression)

  /** What the definition slot holds besides its index set. */
  datatype Definition =
    | Assignment(expression: TE.TensorExpression)
    | ContractionDefinition(contraction: Contraction)

  /** The lengths of an array of n axes as the host allocates it: all zero. */
  function Zeros(n: nat): (r: seq<int>)
    ensures |r| == n && forall k :: 0 <= k < n ==> r[k] == 0
  {
    seq(n, _ => 0)
  }

  /** The names of indices, in order. */
  function Names(indices: seq<Index>): (r: seq<string>)
    ensures |r| == |indices| && forall k :: 0 <= k < |r| ==> r[k] == indices[k].name
  {
    seq(|indices|, k requires 0 <= k < |indices| => indices[k].name)
  }

  /** One integer parameter per name, in order. */
  function IntParameters(names: seq<string>): (r: seq<Expr>)
    ensures |r| == |names|
    ensures forall k :: 0 <= k < |r| ==> r[k] == ParameterExpr(IntType, names[k])
  {
    seq(|names|, k requires 0 <= k < |names| => ParameterExpr(IntType, names[k]))
  }

  /** The element access the generic tensor's getters build: into an EMPTY array of tensors
      of one axis per name, with an integer parameter per name. */
  function EmptyAccess(names: seq<string>): Expr
  {
    OperationExpr(ExpressionType.Index, TensorType,
      [ConstantExpr(ArrayOf(TensorTypeName, |names|), ArrayValue([]))] + IntParameters(names))
  }

  /** The indices a setter of k indices keeps: all of them, except that the six-index setter
      keeps only the first five. */
  function StoredIndices(indices: seq<Index>): (r: seq<Index>)
    ensures |indices| != 6 ==> r == indices
    ensures |indices| == 6 ==> r == indices[..5]
  {
    if |indices| == 6 then indices[..5] else indices
  }

  class Tensor {
    const name: string
    /** The lengths of the axes, as given. */
    const dimensions: seq<int>
    /** The definition slot: its index set, which marks the tensor as assigned, and what was
        stored with it. */
    var definitionIndexSet: IndexSet?
    var definition: Option<Definition>

    /** A tensor of the given axis lengths, not yet assigned. */
    constructor (name: string, dim: seq<int>)
      ensures this.name == name && dimensions == dim
      ensures definitionIndexSet == null && definition == None
    {
      this.name := name;
      dimensions := dim;
      definitionIndexSet := null;
      definition := None;
    }

    function Rank(): nat
    {
      |dimensions|
    }

    /** How the tensor is referenced in an expression. */
    function Term(): TermRef
    {
      TermRef(name)
    }

    /** The host expression a tensor stands for: a constant holding the tensor. */
    function LinqExpression(): Expr
    {
      ConstantExpr(TensorType, TermValue(Term()))
    }

    /** The conversion of a tensor to a tensor expression. */
    function ToTensorExpression(): (r: TE.TensorExpression)
      ensures TE.IsTensorVariable(r) && IsUndefinedTensor(r.linqExpression)
      ensures r.shape == [] && r.lhsTensor == None
    {
      TE.FromExpression(LinqExpression())
    }

    predicate IsAssigned()
      reads this
    {
      definitionIndexSet != null
    }

    /** The set-once guard: fails exactly when the slot already has its index set. */
    function ThrowIfAlreadyAssigned(): (r: Outcome<NotationError>)
      reads this
      ensures r.Fail? <==> definitionIndexSet != null
      ensures r.Fail? ==> r.error == AlreadyAssigned
    {
      if definitionIndexSet != null then Fail(AlreadyAssigned) else Pass
    }

    /** The rank guard: fails exactly when c exceeds the rank. */
    function ThrowIfIndicesExceedRank(c: int): (r: Outcome<NotationError>)
      ensures r.Fail? <==> Rank() < c
      ensures r.Fail? ==> r.error == IndicesExceedRank
    {
      if Rank() < c then Fail(IndicesExceedRank) else Pass
    }

    /** The getter by index set: an access named after the set, allowed when the rank does
        not exceed the set's number of indices. */
    function GetBySet(s: IndexSet): (r: Result<TE.TensorExpression, NotationError>)
      reads s
      ensures r.Ok? <==> Rank() <= s.DimensionCount()
      ensures r.Err? ==> r.error == RankExceedsIndexSet
      ensures r.Ok? ==> r.value.linqExpression == EmptyAccess([s.name]) && r.value.shape == []
    {
      if Rank() <= s.DimensionCount() then Ok(TE.FromExpression(EmptyAccess([s.name])))
      else Err(RankExceedsIndexSet)
    }

    /** The getter by one to seven indices: an access with one parameter per index, named
        after it, allowed when the rank is at least the number of indices. */
    function GetByIndices(indices: seq<Index>): (r: Result<TE.TensorExpression, NotationError>)
      requires 1 <= |indices| <= 7
      ensures r.Ok? <==> Rank() >= |indices|
      ensures r.Err? ==> r.error == IndicesExceedRank
      ensures r.Ok? ==> r.value.linqExpression == EmptyAccess(Names(indices)) && r.value.shape == []
    {
      if Rank() > |indices| - 1 then Ok(TE.FromExpression(EmptyAccess(Names(indices))))
      else Err(IndicesExceedRank)
    }

    /** The setter by index set: after the guard, the set and the value fill the slot. A null
        set leaves the tensor unassigned. */
    method SetBySet(s: IndexSet?, value: TE.TensorExpression) returns (r: Outcome<NotationError>)
      modifies this
      ensures r == old(ThrowIfAlreadyAssigned())
      ensures r.Fail? ==> definitionIndexSet == old(definitionIndexSet) && definition == old(definition)
      ensures r.Pass? ==> definitionIndexSet == s && definition == Some(Assignment(value))
    {
      r := ThrowIfAlreadyAssigned();
      if r.Fail? {
        return;
      }
      definitionIndexSet, definition := s, Some(Assignment(value));
    }

    /** The setter by one to seven indices: after the guard, a new set of the indices the
        setter keeps and the value fill the slot. */
    method SetByIndices(indices: seq<Index>, value: TE.TensorExpression) returns (r: Outcome<NotationError>)
      requires 1 <= |indices| <= 7
      modifies this
      ensures r == old(ThrowIfAlreadyAssigned())
      ensures r.Fail? ==> definitionIndexSet == old(definitionIndexSet) && definition == old(definition)
      ensures r.Pass? ==> definitionIndexSet != null && fresh(definitionIndexSet) && definitionIndexSet.Valid()
      ensures r.Pass? ==> definitionIndexSet.indices == SortedIndices(StoredIndices(indices))
      ensures r.Pass? ==> definitionIndexSet.tensor == None && definition == Some(Assignment(value))
    {
      r := ThrowIfAlreadyAssigned();
      if r.Fail? {
        return;
      }
      var s := new IndexSet.FromIndices(StoredIndices(indices));
      definitionIndexSet, definition := s, Some(Assignment(value));
    }

    /** The factories OneD to SevenD: a tensor of rank 1 to 7, every axis of length 0. */
    static method OfRank(name: string, rank: nat) returns (t: Tensor)
      requires 1 <= rank <= 7
      ensures fresh(t) && t.name == name && t.dimensions == Zeros(rank) && t.Rank() == rank
      ensures !t.IsAssigned()
    {
      t := new Tensor(name, Zeros(rank));
    }

    /** The constructors with an index set out-parameter: the tensor and a new set of one index
        per axis, named from the base. */
    static method WithIndexSet(name: string, indexNameBase: string, dim: seq<int>) returns (t: Tensor, s: IndexSet)
      ensures fresh(t) && t.name == name && t.dimensions == dim && !t.IsAssigned()
      ensures fresh(s) && s.Valid() && s.name == "" && s.tensor == None
      ensures s.indices == DimensionIndices(s, |dim|, indexNameBase) && s.DimensionCount() == t.Rank()
    {
      t := new Tensor(name, dim);
      s := new IndexSet.FromDimension(|dim|, indexNameBase, "");
    }

    /** The factories TwoD to SevenD with an index set out-parameter. */
    static method OfRankWithIndexSet(name: string, rank: nat) returns (t: Tensor, s: IndexSet)
      requires 2 <= rank <= 7
      ensures fresh(t) && t.name == name && t.dimensions == Zeros(rank) && !t.IsAssigned()
      ensures fresh(s) && s.Valid() && s.indices == DimensionIndices(s, rank, "")
    {
      t, s := WithIndexSet(name, "", Zeros(rank));
    }

    /** The factories OneD to FourD with index out-parameters: the tensor and the indices of a
        new set of one index per axis, in order, named from the base. */
    static method OfRankWithIndices(name: string, indexNameBase: string, rank: nat) returns (t: Tensor, indices: seq<Index>)
      requires 1 <= rank <= 4
      ensures fresh(t) && t.name == name && t.dimensions == Zeros(rank) && !t.IsAssigned()
      ensures |indices| == rank
      ensures forall k :: 0 <= k < rank ==>
        indices[k].order == k && indices[k].name == GetName(k, indexNameBase) && indices[k].Kind() == ConstantIndex
      ensures forall k :: 0 <= k < rank ==> indices[k].Parent() != null && fresh(indices[k].Parent())
      ensures forall k :: 0 <= k < rank ==> indices[k] == ConstantIndexOf(indices[0].Parent(), k, 0, GetName(k, indexNameBase))
    {
      var s := new IndexSet.FromDimension(rank, indexNameBase, "");
      if rank == 1 {
        var r := s.ToIndex();
        indices := [r.value];
      } else if rank == 2 {
        var r := s.Deconstruct2();
        indices := [r.value.0, r.value.1];
      } else if rank == 3 {
        var r := s.Deconstruct3();
        indices := [r.value.0, r.value.1, r.value.2];
      } else {
        var r := s.Deconstruct4();
        indices := [r.value.0, r.value.1, r.value.2, r.value.3];
      }
      t := new Tensor(name, Zeros(rank));
    }
  }

  /** The node list of a list of parameters is the list itself. */
  lemma {:induction false} ParameterNodes(names: seq<string>)
    ensures NodesOf(IntParameters(names)) == IntParameters(names)
    decreases |names|
  {
    if names != [] {
      var front := names[..|names| - 1];
      ParameterNodes(front);
      assert IntParameters(names)[..|names| - 1] == IntParameters(front);
    }
  }

  /** No integer parameter is a constant. */
  lemma ParameterConstants(names: seq<string>, t: string)
    ensures DirectValues(IntParameters(names), t) == Ok([])
    ensures ArrayFirsts(IntParameters(names), t) == Ok([])
    decreases |names|
  {
    if names != [] {
      ParameterConstants(names[..|names| - 1], t);
      assert IntParameters(names)[..|names| - 1] == IntParameters(names[..|names| - 1]);
    }
  }

  /** The nodes of an access: the access, the array constant, then the parameters. */
  lemma AccessNodes(ty: HostType, arr: Expr, names: seq<string>)
    requires arr.ConstantExpr?
    ensures Nodes(OperationExpr(ExpressionType.Index, ty, [arr] + IntParameters(names))) ==
      [OperationExpr(ExpressionType.Index, ty, [arr] + IntParameters(names))] + ([arr] + IntParameters(names))
  {
    var ps := IntParameters(names);
    NodesAppendOne(arr, ps);
    ParameterNodes(names);
  }

  /** The node list of a leading leaf and a list is the leaf then the list's nodes. */
  lemma {:induction false} NodesAppendOne(leaf: Expr, es: seq<Expr>)
    requires leaf.ConstantExpr?
    ensures NodesOf([leaf] + es) == [leaf] + NodesOf(es)
    decreases |es|
  {
    if es == [] {
      assert [leaf] + es == [leaf];
      NodesOfSingle(leaf);
    } else {
      var front := es[..|es| - 1];
      NodesAppendOne(leaf, front);
      assert ([leaf] + es)[..|[leaf] + es| - 1] == [leaf] + front;
      assert ([leaf] + es)[|[leaf] + es| - 1] == es[|es| - 1];
    }
  }

  /** The generic tensor's getters hold no tensor: their arr is empty, so collecting the
      tensors of the access fails. */
  lemma EmptyAccessHoldsNoTensor(names: seq<string>)
    ensures GetConstants(EmptyAccess(names), TensorTypeName) == Err(EmptyArray)
  {
    var arr := ConstantExpr(ArrayOf(TensorTypeName, |names|), ArrayValue([]));
    var e := EmptyAccess(names);
    AccessNodes(TensorType, arr, names);
    ParameterConstants(names, TensorTypeName);
    DirectValuesAppend([e], [arr] + IntParameters(names), TensorTypeName);
    DirectValuesAppend([arr], IntParameters(names), TensorTypeName);
    ArrayFirstsAppend([e], [arr] + IntParameters(names), TensorTypeName);
    ArrayFirstsAppend([arr], IntParameters(names), TensorTypeName);
    assert [e][..0] == [] && [arr][..0] == [];
    assert DirectValues([e], TensorTypeName) == Ok([]);
    assert DirectValues([arr], TensorTypeName) == Ok([]);
    assert ArrayFirsts([arr], TensorTypeName) == Err(EmptyArray);
  }

  /** A tensor converted to an expression holds exactly itself. */
  lemma TensorExpressionHoldsItself(t: Tensor)
    ensures TE.Tensors(t.ToTensorExpression()) == Ok([t.Term()])
  {
    var c := t.LinqExpression();
    assert Nodes(c) == [c];
    assert [c][..0] == [];
    assert DirectValues([c], TensorTypeName) == Ok([] + [t.Term()]);
    assert ArrayFirsts([c], TensorTypeName) == Ok([]);
    assert [] + [t.Term()] == [t.Term()];
    assert Distinct([t.Term()]) == [t.Term()];
    assert Distinct<TermRef>([]) == [];
    assert GetConstants(c, TensorTypeName) == Ok(Distinct([t.Term()]) + Distinct([]));
    assert [t.Term()] + [] == [t.Term()];
  }

  /** The six-index setter loses its sixth index: when the six orders are distinct, the stored
      set has five indices and none of the sixth's order. */
  lemma SixthIndexDropped(indices: seq<Index>)
    requires |indices| == 6
    requires forall i, j :: 0 <= i < j < 6 ==> indices[i].order != indices[j].order
    ensures |SortedIndices(StoredIndices(indices))| == 5
    ensures indices[5].order !in Orders(SortedIndices(StoredIndices(indices)))
    ensures forall y :: y in SortedIndices(StoredIndices(indices)) ==> y != indices[5]
  {
    var kept := indices[..5];
    SortedIndicesSpec(kept);
    OrdersMembers(kept, indices[5].order);
    DistinctOrdersCount(kept);
  }

  /** Indices of distinct orders have as many orders as indices. */
  lemma {:induction false} DistinctOrdersCount(xs: seq<Index>)
    requires forall i, j :: 0 <= i < j < |xs| ==> xs[i].order != xs[j].order
    ensures |Orders(xs)| == |xs|
    decreases |xs|
  {
    if xs != [] {
      var front, last := xs[..|xs| - 1], xs[|xs| - 1];
      DistinctOrdersCount(front);
      OrdersMembers(front, last.order);
      OrdersAppend(front, [last]);
      assert xs == front + [last];
      assert [last][..0] == [];
      assert Orders([last]) == {last.order};
    }
  }
}
