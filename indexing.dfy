/** Indices and index sets of the tensor notation. An index is one axis: either a constant
    index, positioned by its order in the index set that created it, or an index expression
    built by arithmetic on indices. An index set keeps its indices sorted by order, holding
    one index per order. */
module Indexing {
  import opened Wrappers
  import opened Text
  import opened HostExpressions

  /** The exceptions the notation objects raise. */
  datatype NotationError =
    | IndicesExceedDimensions
    | ElementOutOfRange
    | IndicesExceedRank
    | RankExceedsIndexSet
    | AlreadyAssigned

  /** Whether an index is bound to an axis of an index set or is an index expression. */
  datatype IndexKind = ConstantIndex | ExpressionIndex

  /** An index expression: the host expression index arithmetic builds. */
  datatype TensorIndexExpression = TensorIndexExpression(linqExpression: Expr)

  /** An index: its name, the index set it belongs to (null for an index expression), its
      order in that set, the length of its axis, and for an index expression the expression. */
  datatype Index = Index(
    name: string,
    indexSet: IndexSet?,
    order: int,
    dimension: int,
    indexExpression: Option<TensorIndexExpression>)
  {
    /** An index is an index expression exactly when it carries an expression. */
    function Kind(): IndexKind
    {
      if indexExpression.Some? then ExpressionIndex else ConstantIndex
    }

    function Axis(): int
    {
      dimension
    }

    function Parent(): IndexSet?
    {
      indexSet
    }

    /** How the index is referenced in a notation object. */
    function Term(): TermRef
    {
      TermRef(name)
    }
  }

  const TensorIndexExpressionType: HostType := HostType("TensorIndexExpression", TermTypeName, None)
  const IndexSetType: HostType := HostType("IndexSet", TermTypeName, None)

  /** The index at a given order of an index owner, for an axis of a given length. */
  function ConstantIndexOf(owner: IndexSet?, order: int, dim: int, name: string): (r: Index)
    ensures r.Kind() == ConstantIndex && r.Parent() == owner && r.order == order && r.Axis() == dim && r.name == name
  {
    Index.Index(name, owner, order, dim, None)
  }

  /** The index expression an index arithmetic result stands for, named by the caller. */
  function ExpressionIndexOf(e: TensorIndexExpression, name: string): (r: Index)
    ensures r.Kind() == ExpressionIndex && r.Parent() == null && r.order == 0 && r.name == name
    ensures IndexExpression(r) == e.linqExpression
  {
    Index.Index(name, null, 0, 0, Some(e))
  }

  const IntIndexPrefix: string := "index_expr_int_"

  /** The index an integer converts to: an index expression holding the integer constant. */
  function IntIndex(i: int): (r: Index)
    ensures r.Kind() == ExpressionIndex && r.name == IntIndexPrefix + IntToString(i)
    ensures IndexExpression(r) == ConstantExpr(IntType, IntValue(i))
  {
    Index.Index(IntIndexPrefix + IntToString(i), null, 0, 0, Some(TensorIndexExpression(ConstantExpr(IntType, IntValue(i)))))
  }

  /** The host expression an index stands for: a constant holding the index itself for a
      constant index, its expression otherwise. */
  function IndexExpression(ix: Index): (r: Expr)
    ensures ix.Kind() == ConstantIndex ==> r == ConstantExpr(IndexType, TermValue(ix.Term()))
    ensures ix.Kind() == ExpressionIndex ==> r == ix.indexExpression.value.linqExpression
  {
    match ix.indexExpression
    case None => ConstantExpr(IndexType, TermValue(ix.Term()))
    case Some(e) => e.linqExpression
  }

  /** The host type of an index: Index for a constant index, the constant's type for an
      expression that is a constant, TensorIndexExpression otherwise. */
  function GetIndexType(ix: Index): (r: HostType)
    ensures ix.Kind() == ConstantIndex ==> r == IndexType
    ensures ix.Kind() == ExpressionIndex && NodeType(IndexExpression(ix)) == Constant ==> r == IndexExpression(ix).ty
    ensures ix.Kind() == ExpressionIndex && NodeType(IndexExpression(ix)) != Constant ==> r == TensorIndexExpressionType
  {
    if ix.indexExpression.None? then IndexType
    else if NodeType(ix.indexExpression.value.linqExpression) == Constant then ix.indexExpression.value.linqExpression.ty
    else TensorIndexExpressionType
  }

  /** An integer index has the integer type, so index arithmetic can tell integer offsets
      from indices. */
  lemma IntIndexType(i: int, owner: IndexSet?, order: int, dim: int, name: string)
    ensures GetIndexType(IntIndex(i)) == IntType
    ensures GetIndexType(ConstantIndexOf(owner, order, dim, name)) == IndexType
    ensures GetIndexType(IntIndex(i)) != GetIndexType(ConstantIndexOf(owner, order, dim, name))
  {
  }

  /** The negation of an index. */
  function Negate(ix: Index): (r: TensorIndexExpression)
    ensures r.linqExpression.OperationExpr? && r.linqExpression.nodeType == ExpressionType.Negate
    ensures r.linqExpression.operands == [IndexExpression(ix)]
  {
    TensorIndexExpression(OperationExpr(ExpressionType.Negate, IndexExpression(ix).ty, [IndexExpression(ix)]))
  }

  /** The arithmetic node types index arithmetic builds. */
  predicate IsIndexArithmetic(op: ExpressionType)
  {
    op in {ExpressionType.Add, Subtract, Multiply, Divide}
  }

  /** Index arithmetic: a node of the operator over the two indices' expressions, in order,
      typed by the dummy operator method that returns an Index. */
  function Arithmetic(op: ExpressionType, left: Index, right: Index): (r: TensorIndexExpression)
    requires IsIndexArithmetic(op)
    ensures r.linqExpression.OperationExpr? && r.linqExpression.nodeType == op
    ensures r.linqExpression.operands == [IndexExpression(left), IndexExpression(right)]
    ensures r.linqExpression.ty == IndexType
  {
    TensorIndexExpression(OperationExpr(op, IndexType, [IndexExpression(left), IndexExpression(right)]))
  }

  /** Indices compare by order: the sign of the comparison of their orders. */
  function CompareTo(a: Index, b: Index): (r: int)
    ensures r < 0 <==> a.order < b.order
    ensures r == 0 <==> a.order == b.order
    ensures r > 0 <==> a.order > b.order
  {
    if a.order < b.order then -1 else if a.order == b.order then 0 else 1
  }

  /** The comparison is a total preorder in which indices of equal order tie. */
  lemma CompareToPreorder(a: Index, b: Index, c: Index)
    ensures CompareTo(a, a) == 0
    ensures CompareTo(a, b) == -CompareTo(b, a)
    ensures CompareTo(a, b) <= 0 || CompareTo(b, a) <= 0
    ensures CompareTo(a, b) <= 0 && CompareTo(b, c) <= 0 ==> CompareTo(a, c) <= 0
  {
  }

  // ---- Sorted sets of indices --------------------------------------------------------

  /** Orders strictly increase along the sequence. */
  predicate StrictlySorted(s: seq<Index>)
  {
    forall i, j :: 0 <= i < j < |s| ==> s[i].order < s[j].order
  }

  /** The orders present in a sequence of indices. */
  function Orders(s: seq<Index>): set<int>
  {
    if s == [] then {} else Orders(s[..|s| - 1]) + {s[|s| - 1].order}
  }

  /** An order is present exactly when some index of the sequence has it. */
  lemma {:induction false} OrdersMembers(s: seq<Index>, o: int)
    ensures o in Orders(s) <==> exists i :: 0 <= i < |s| && s[i].order == o
  {
    if s != [] {
      var front := s[..|s| - 1];
      OrdersMembers(front, o);
      if exists i :: 0 <= i < |s| && s[i].order == o {
        var i :| 0 <= i < |s| && s[i].order == o;
        if i < |front| {
          assert front[i].order == o;
        }
      }
      if exists i :: 0 <= i < |front| && front[i].order == o {
        var i :| 0 <= i < |front| && front[i].order == o;
        assert s[i].order == o;
      }
    }
  }

  /** Adding an index to a sorted set: kept at its place by comparison, and not added when an
      index of the same order is already there. */
  function Insert(s: seq<Index>, x: Index): seq<Index>
  {
    if s == [] then [x]
    else if CompareTo(x, s[0]) == 0 then s
    else if CompareTo(x, s[0]) < 0 then [x] + s
    else [s[0]] + Insert(s[1..], x)
  }

  /** The orders of two sequences joined are the orders of each. */
  lemma {:induction false} OrdersAppend(a: seq<Index>, b: seq<Index>)
    ensures Orders(a + b) == Orders(a) + Orders(b)
    decreases |b|
  {
    if b == [] {
      assert a + b == a;
    } else {
      var front := b[..|b| - 1];
      OrdersAppend(a, front);
      assert (a + b)[..|a + b| - 1] == a + front;
      assert (a + b)[|a + b| - 1] == b[|b| - 1];
    }
  }

  /** Insertion adds no index other than the inserted one. */
  lemma {:induction false} InsertElements(s: seq<Index>, x: Index)
    ensures forall y :: y in Insert(s, x) ==> y in s || y == x
  {
    if s != [] && CompareTo(x, s[0]) > 0 {
      InsertElements(s[1..], x);
      assert s == [s[0]] + s[1..];
    }
  }

  /** Insertion adds the inserted index's order to the orders and no other. */
  lemma {:induction false} InsertOrders(s: seq<Index>, x: Index)
    ensures Orders(Insert(s, x)) == Orders(s) + {x.order}
  {
    if s == [] {
      assert Orders([x]) == {x.order};
    } else {
      assert s == [s[0]] + s[1..];
      OrdersAppend([s[0]], s[1..]);
      assert Orders([s[0]]) == {s[0].order};
      assert Orders([x]) == {x.order};
      if CompareTo(x, s[0]) < 0 {
        OrdersAppend([x], s);
      } else if CompareTo(x, s[0]) > 0 {
        InsertOrders(s[1..], x);
        OrdersAppend([s[0]], Insert(s[1..], x));
      }
    }
  }

  /** The tail of a sorted sequence is sorted. */
  lemma SortedTail(s: seq<Index>)
    requires StrictlySorted(s) && s != []
    ensures StrictlySorted(s[1..])
  {
    forall i, j | 0 <= i < j < |s[1..]| ensures s[1..][i].order < s[1..][j].order {
      assert s[1..][i] == s[i + 1] && s[1..][j] == s[j + 1];
    }
  }

  /** An index below every order of a sorted sequence can go in front of it. */
  lemma ConsSorted(h: Index, r: seq<Index>)
    requires StrictlySorted(r)
    requires forall i :: 0 <= i < |r| ==> h.order < r[i].order
    ensures StrictlySorted([h] + r)
  {
    forall i, j | 0 <= i < j < |[h] + r| ensures ([h] + r)[i].order < ([h] + r)[j].order {
      assert ([h] + r)[j] == r[j - 1];
      if i > 0 {
        assert ([h] + r)[i] == r[i - 1];
      }
    }
  }

  /** Insertion keeps a set sorted. */
  lemma {:induction false} InsertSorted(s: seq<Index>, x: Index)
    requires StrictlySorted(s)
    ensures StrictlySorted(Insert(s, x))
  {
    if s != [] {
      if CompareTo(x, s[0]) < 0 {
        ConsSorted(x, s);
      } else if CompareTo(x, s[0]) > 0 {
        var t := s[1..];
        SortedTail(s);
        InsertSorted(t, x);
        InsertElements(t, x);
        var r := Insert(t, x);
        forall i | 0 <= i < |r| ensures s[0].order < r[i].order {
          assert r[i] in r;
          if r[i] in t {
            var k :| 0 <= k < |t| && t[k] == r[i];
            assert s[k + 1] == r[i];
          }
        }
        ConsSorted(s[0], r);
      }
    }
  }

  /** An index whose order is already at position k is not added. */
  lemma {:induction false} InsertAt(s: seq<Index>, x: Index, k: nat)
    requires StrictlySorted(s) && k < |s| && s[k].order == x.order
    ensures Insert(s, x) == s
  {
    if k > 0 {
      assert s[0].order < s[k].order;
      var t := s[1..];
      assert t[k - 1] == s[k];
      SortedTail(s);
      InsertAt(t, x, k - 1);
      assert Insert(s, x) == [s[0]] + Insert(t, x);
      assert s == [s[0]] + t;
    }
  }

  /** An index whose order is already present is not added. */
  lemma InsertPresent(s: seq<Index>, x: Index)
    requires StrictlySorted(s) && x.order in Orders(s)
    ensures Insert(s, x) == s
  {
    OrdersMembers(s, x.order);
    var k :| 0 <= k < |s| && s[k].order == x.order;
    InsertAt(s, x, k);
  }

  /** An index above every order of a sorted set is appended at its end. */
  lemma {:induction false} InsertLast(s: seq<Index>, x: Index)
    requires forall y :: y in s ==> y.order < x.order
    ensures Insert(s, x) == s + [x]
  {
    if s != [] {
      assert forall y :: y in s[1..] ==> y in s;
      InsertLast(s[1..], x);
      assert s == [s[0]] + s[1..];
    }
  }

  /** A sorted set made from a sequence of indices: each added in turn. */
  function SortedIndices(xs: seq<Index>): seq<Index>
  {
    if xs == [] then [] else Insert(SortedIndices(xs[..|xs| - 1]), xs[|xs| - 1])
  }

  /** A strictly sorted sequence holds one index per order. */
  lemma {:induction false} SortedCount(s: seq<Index>)
    requires StrictlySorted(s)
    ensures |Orders(s)| == |s|
  {
    if s != [] {
      var front, last := s[..|s| - 1], s[|s| - 1];
      assert StrictlySorted(front);
      SortedCount(front);
      OrdersMembers(front, last.order);
      assert last.order !in Orders(front) by {
        forall i | 0 <= i < |front| ensures front[i].order != last.order {
          assert s[i] == front[i];
        }
      }
    }
  }

  /** The sorted set of a sequence is sorted by order, holds only indices of the sequence,
      holds every order of the sequence once, so its size is the number of distinct orders. */
  lemma {:induction false} SortedIndicesSpec(xs: seq<Index>)
    ensures StrictlySorted(SortedIndices(xs))
    ensures forall y :: y in SortedIndices(xs) ==> y in xs
    ensures Orders(SortedIndices(xs)) == Orders(xs)
    ensures |SortedIndices(xs)| == |Orders(xs)|
  {
    if xs != [] {
      var front, last := xs[..|xs| - 1], xs[|xs| - 1];
      SortedIndicesSpec(front);
      InsertSorted(SortedIndices(front), last);
      InsertElements(SortedIndices(front), last);
      InsertOrders(SortedIndices(front), last);
      assert forall y :: y in front ==> y in xs;
      SortedCount(SortedIndices(xs));
    }
  }

  /** Equal orders collapse: an index whose order is already in the set is not added. */
  lemma EqualOrdersCollapse(xs: seq<Index>, x: Index)
    requires x.order in Orders(xs)
    ensures SortedIndices(xs + [x]) == SortedIndices(xs)
  {
    assert (xs + [x])[..|xs|] == xs;
    SortedIndicesSpec(xs);
    InsertPresent(SortedIndices(xs), x);
  }

  /** Two indices of the same order collapse into the first one added. */
  lemma EqualOrdersPair(a: Index, b: Index)
    requires a.order == b.order
    ensures SortedIndices([a, b]) == [a]
  {
    assert [a, b][..1] == [a];
    assert [a][..0] == [];
    assert SortedIndices([a]) == [a];
  }

  /** Indices added out of order come out sorted. */
  lemma OutOfOrderSorted(a: Index, b: Index)
    requires a.order > b.order
    ensures SortedIndices([a, b]) == [b, a]
  {
    assert [a, b][..1] == [a];
    assert [a][..0] == [];
    assert SortedIndices([a]) == [a];
  }

  /** Term.GetName, whose naming policy is not part of this model: the name base followed by
      the position. */
  function GetName(i: nat, nameBase: string): string
  {
    nameBase + NatToString(i)
  }

  /** The indices the dimension constructor creates for a set: one per position below n, each
      with its position as order and axis length 0. */
  function DimensionIndices(owner: IndexSet, n: nat, nameBase: string): (r: seq<Index>)
    ensures |r| == n
    ensures forall k :: 0 <= k < n ==> r[k] == ConstantIndexOf(owner, k, 0, GetName(k, nameBase))
  {
    if n == 0 then [] else DimensionIndices(owner, n - 1, nameBase) + [ConstantIndexOf(owner, n - 1, 0, GetName(n - 1, nameBase))]
  }

  class IndexSet {
    /** The set's own name. */
    const name: string
    /** The tensor a set made for a tensor's indexer belongs to. */
    const tensor: Option<TermRef>
    /** The indices, kept sorted by order with one index per order. */
    var indices: seq<Index>

    ghost predicate Valid()
      reads this
    {
      StrictlySorted(indices)
    }

    /** The set of dim indices, the k-th of order k and belonging to this set. */
    constructor FromDimension(dim: int, indexNameBase: string, name: string)
      ensures Valid()
      ensures this.name == name && tensor == None
      ensures dim <= 0 ==> indices == []
      ensures dim > 0 ==> indices == DimensionIndices(this, dim, indexNameBase)
    {
      this.name := name;
      tensor := None;
      indices := [];
      new;
      var i := 0;
      while i < dim
        invariant 0 <= i && (dim > 0 ==> i <= dim) && (dim <= 0 ==> i == 0)
        invariant indices == DimensionIndices(this, i, indexNameBase)
        invariant StrictlySorted(indices)
      {
        InsertLast(indices, ConstantIndexOf(this, i, 0, GetName(i, indexNameBase)));
        indices := Insert(indices, ConstantIndexOf(this, i, 0, GetName(i, indexNameBase)));
        i := i + 1;
      }
    }

    /** The set of the given indices, sorted by order, equal orders collapsed. */
    constructor FromIndices(xs: seq<Index>)
      ensures Valid()
      ensures name == "" && tensor == None
      ensures indices == SortedIndices(xs)
    {
      name := "";
      tensor := None;
      indices := SortedIndices(xs);
      SortedIndicesSpec(xs);
    }

    /** The set of the indices a tensor is indexed with, as the tensor's indexers make it. */
    constructor ForTensor(t: TermRef, xs: seq<Index>)
      ensures Valid()
      ensures name == "" && tensor == Some(t)
      ensures indices == SortedIndices(xs)
    {
      name := "";
      tensor := Some(t);
      indices := SortedIndices(xs);
      SortedIndicesSpec(xs);
    }

    function DimensionCount(): nat
      reads this
    {
      |indices|
    }

    /** The host expression an index set stands for: a constant holding the set. */
    function LinqExpression(): Expr
    {
      ConstantExpr(IndexSetType, TermValue(TermRef(name)))
    }

    /** The guard: fails exactly when c exceeds the number of indices. */
    function CheckIndices(c: int): (r: Outcome<NotationError>)
      reads this
      ensures r.Fail? <==> c > DimensionCount()
      ensures r.Fail? ==> r.error == IndicesExceedDimensions
    {
      if c > DimensionCount() then Fail(IndicesExceedDimensions) else Pass
    }

    /** The index at a position: the guard, then the element at that position. */
    function At(k: int): (r: Result<Index, NotationError>)
      reads this
      ensures r.Ok? <==> 0 <= k < DimensionCount()
      ensures r.Ok? ==> r.value == indices[k]
      ensures k > DimensionCount() ==> r == Err(IndicesExceedDimensions)
      ensures (k < 0 || k == DimensionCount()) ==> r == Err(ElementOutOfRange)
    {
      if CheckIndices(k).Fail? then Err(CheckIndices(k).error)
      else if 0 <= k < |indices| then Ok(indices[k])
      else Err(ElementOutOfRange)
    }

    /** The implicit conversion to an index: the guard for one index, then the first one. */
    function ToIndex(): (r: Result<Index, NotationError>)
      reads this
      ensures r.Ok? <==> DimensionCount() >= 1
      ensures r.Ok? ==> r.value == indices[0]
      ensures r.Err? ==> r.error == IndicesExceedDimensions
    {
      if CheckIndices(1).Fail? then Err(IndicesExceedDimensions) else At(0)
    }

    /** Deconstruction into two indices: the guard for two, then positions 0 and 1, which
        cannot fail once the guard passes. */
    function Deconstruct2(): (r: Result<(Index, Index), NotationError>)
      reads this
      ensures r.Ok? <==> DimensionCount() >= 2
      ensures r.Ok? ==> r.value == (indices[0], indices[1])
    {
      if CheckIndices(2).Fail? then Err(CheckIndices(2).error)
      else Ok((indices[0], indices[1]))
    }

    /** Deconstruction into three indices behind the guard for two: positions 0 and 1 cannot
        fail once it passes, position 2 can. */
    function Deconstruct3(): (r: Result<(Index, Index, Index), NotationError>)
      reads this
      ensures r.Ok? <==> DimensionCount() >= 3
      ensures r.Ok? ==> r.value == (indices[0], indices[1], indices[2])
    {
      if CheckIndices(2).Fail? then Err(CheckIndices(2).error)
      else if At(2).Err? then Err(At(2).error)
      else Ok((indices[0], indices[1], At(2).value))
    }

    /** Deconstruction into four indices behind the guard for two: positions 0 and 1 cannot
        fail once it passes, positions 2 and 3 can. */
    function Deconstruct4(): (r: Result<(Index, Index, Index, Index), NotationError>)
      reads this
      ensures r.Ok? <==> DimensionCount() >= 4
      ensures r.Ok? ==> r.value == (indices[0], indices[1], indices[2], indices[3])
    {
      if CheckIndices(2).Fail? then Err(CheckIndices(2).error)
      else if At(2).Err? then Err(At(2).error)
      else if At(3).Err? then Err(At(3).error)
      else Ok((indices[0], indices[1], At(2).value, At(3).value))
    }
  }

  /** Past the end the guard lets the last position plus one through, and the element lookup
      fails instead. */
  lemma GuardOffByOne(s: IndexSet)
    ensures s.CheckIndices(s.DimensionCount()).Pass?
    ensures s.At(s.DimensionCount()) == Err(ElementOutOfRange)
    ensures s.At(s.DimensionCount() + 1) == Err(IndicesExceedDimensions)
  {
  }

  /** Deconstructing too short a set into three or four indices is refused by the element
      lookup, since the guard checks for two only; into two, by the guard. */
  lemma DeconstructGuards(s: IndexSet)
    ensures s.DimensionCount() < 2 ==> s.Deconstruct2() == Err(IndicesExceedDimensions)
    ensures s.DimensionCount() < 2 ==> s.Deconstruct3() == Err(IndicesExceedDimensions)
    ensures s.DimensionCount() == 2 ==> s.Deconstruct3() == Err(ElementOutOfRange)
    ensures 2 <= s.DimensionCount() < 4 ==> s.Deconstruct4() == Err(ElementOutOfRange)
  {
  }

  /** One: a set of one index and that index. The name base is not passed on. */
  method One(nameBase: string) returns (s: IndexSet, index1: Index)
    ensures fresh(s) && s.Valid()
    ensures s.indices == DimensionIndices(s, 1, "") && index1 == s.indices[0]
  {
    s := new IndexSet.FromDimension(1, "", "");
    var r := s.At(0);
    index1 := r.value;
  }

  /** Two: a set of two indices and those indices in position order. */
  method Two(nameBase: string) returns (s: IndexSet, index1: Index, index2: Index)
    ensures fresh(s) && s.Valid()
    ensures s.indices == DimensionIndices(s, 2, "") && index1 == s.indices[0] && index2 == s.indices[1]
  {
    s := new IndexSet.FromDimension(2, "", "");
    var r1 := s.At(0);
    var r2 := s.At(1);
    index1, index2 := r1.value, r2.value;
  }

  /** Three: a set of three indices and those indices in position order. */
  method Three(nameBase: string) returns (s: IndexSet, index1: Index, index2: Index, index3: Index)
    ensures fresh(s) && s.Valid()
    ensures s.indices == DimensionIndices(s, 3, "")
    ensures index1 == s.indices[0] && index2 == s.indices[1] && index3 == s.indices[2]
  {
    s := new IndexSet.FromDimension(3, "", "");
    var r1 := s.At(0);
    var r2 := s.At(1);
    var r3 := s.At(2);
    index1, index2, index3 := r1.value, r2.value, r3.value;
  }

  /** Four: a set of four indices, deconstructed into those indices in position order. */
  method Four(nameBase: string) returns (s: IndexSet, index1: Index, index2: Index, index3: Index, index4: Index)
    ensures fresh(s) && s.Valid()
    ensures s.indices == DimensionIndices(s, 4, "")
    ensures index1 == s.indices[0] && index2 == s.indices[1] && index3 == s.indices[2] && index4 == s.indices[3]
  {
    s := new IndexSet.FromDimension(4, "", "");
    var r := s.Deconstruct4();
    index1, index2, index3, index4 := r.value.0, r.value.1, r.value.2, r.value.3;
  }

  /** The conversion of a tuple of two to seven indices: the set of those indices. */
  method FromTuple(items: seq<Index>) returns (s: IndexSet)
    requires 2 <= |items| <= 7
    ensures fresh(s) && s.Valid()
    ensures s.indices == SortedIndices(items) && s.tensor == None
  {
    s := new IndexSet.FromIndices(items);
  }
}
