/** The extension functions over host expressions that the notation layer and the tree builder
    use: operator lookup tables, the collection of the notation objects held by constants and
    named by parameters, and two type tests. */
module ExpressionExtensions {
  import opened Wrappers
  import opened HostExpressions
  import Trees

  /** The exceptions these functions raise. */
  datatype ExtensionError =
    | NotSupported(expressionType: ExpressionType)
    | NotImplemented
    | InvalidCast
    | EmptyArray
    | WrongType(expected: string)

  // ---- Operator lookup ----------------------------------------------------------------

  /** The tensor operator of a host node type. */
  function ToOp(et: ExpressionType): (r: Result<Trees.TensorOp, ExtensionError>)
    ensures r.Err? ==> r.error == NotSupported(et)
  {
    match et
    case Index => Ok(Trees.TensorOp.Index)
    case Multiply => Ok(Trees.TensorOp.Mul)
    case Divide => Ok(Trees.TensorOp.Div)
    case Add => Ok(Trees.TensorOp.Add)
    case Subtract => Ok(Trees.TensorOp.Sub)
    case Power => Ok(Trees.TensorOp.Pow)
    case _ => Err(NotSupported(et))
  }

  /** The host node type a tensor operator is translated from, when there is one. */
  function FromOp(op: Trees.TensorOp): Option<ExpressionType>
  {
    match op
    case Index => Some(ExpressionType.Index)
    case Mul => Some(Multiply)
    case Div => Some(Divide)
    case Add => Some(ExpressionType.Add)
    case Sub => Some(Subtract)
    case Pow => Some(Power)
    case _ => None
  }

  /** ToOp is defined on exactly six node types. */
  lemma ToOpDomain(et: ExpressionType)
    ensures ToOp(et).Ok? <==> et in {ExpressionType.Index, Multiply, Divide, ExpressionType.Add, Subtract, Power}
  {
  }

  /** FromOp undoes ToOp, and ToOp undoes FromOp. */
  lemma ToOpRoundTrip(et: ExpressionType, op: Trees.TensorOp)
    ensures ToOp(et).Ok? ==> FromOp(ToOp(et).value) == Some(et)
    ensures FromOp(op).Some? ==> ToOp(FromOp(op).value) == Ok(op)
  {
  }

  /** Two node types that ToOp translates to the same operator are the same. */
  lemma ToOpInjective(a: ExpressionType, b: ExpressionType)
    requires ToOp(a).Ok? && ToOp(b).Ok? && ToOp(a).value == ToOp(b).value
    ensures a == b
  {
    ToOpRoundTrip(a, ToOp(a).value);
    ToOpRoundTrip(b, ToOp(b).value);
  }

  const SumMethod: string := "Op_Sum"
  const SquareMethod: string := "Op_Square"
  const SqrtMethod: string := "Op_Sqrt"

  /** The tensor operator of a call to one of the notation layer's operator methods. */
  function MethodCallToTensorOp(call: Expr): (r: Result<Trees.TensorOp, ExtensionError>)
    requires call.CallExpr?
    ensures r.Err? ==> r.error == NotImplemented
  {
    if call.methodName == SumMethod then Ok(Trees.TensorOp.Sum)
    else if call.methodName == SquareMethod then Ok(Trees.TensorOp.Square)
    else if call.methodName == SqrtMethod then Ok(Trees.TensorOp.Sqrt)
    else Err(NotImplemented)
  }

  /** Only the three operator methods translate, each to its own operator, and none of them to
      an operator that a node type translates to. */
  lemma MethodCallDomain(call: Expr, et: ExpressionType)
    requires call.CallExpr?
    ensures MethodCallToTensorOp(call).Ok? <==> call.methodName in {SumMethod, SquareMethod, SqrtMethod}
    ensures call.methodName == SumMethod ==> MethodCallToTensorOp(call) == Ok(Trees.TensorOp.Sum)
    ensures call.methodName == SquareMethod ==> MethodCallToTensorOp(call) == Ok(Trees.TensorOp.Square)
    ensures call.methodName == SqrtMethod ==> MethodCallToTensorOp(call) == Ok(Trees.TensorOp.Sqrt)
    ensures MethodCallToTensorOp(call).Ok? && ToOp(et).Ok? ==> MethodCallToTensorOp(call).value != ToOp(et).value
  {
  }

  // ---- Distinct -----------------------------------------------------------------------

  predicate NoDuplicates<T(==)>(xs: seq<T>)
  {
    forall i, j :: 0 <= i < j < |xs| ==> xs[i] != xs[j]
  }

  /** The elements of a sequence in order, each kept at its first occurrence only. */
  function Distinct<T(==)>(xs: seq<T>): seq<T>
  {
    if xs == [] then []
    else
      var front := xs[..|xs| - 1];
      if xs[|xs| - 1] in front then Distinct(front) else Distinct(front) + [xs[|xs| - 1]]
  }

  /** Distinct keeps exactly the elements and repeats none. */
  lemma {:induction false} DistinctSpec<T>(xs: seq<T>)
    ensures forall x :: x in Distinct(xs) <==> x in xs
    ensures NoDuplicates(Distinct(xs))
  {
    if xs != [] {
      var front := xs[..|xs| - 1];
      DistinctSpec(front);
      assert xs == front + [xs[|xs| - 1]];
    }
  }

  /** A sequence without repeats is its own Distinct. */
  lemma {:induction false} DistinctOfDistinct<T>(xs: seq<T>)
    requires NoDuplicates(xs)
    ensures Distinct(xs) == xs
  {
    if xs != [] {
      var front := xs[..|xs| - 1];
      assert NoDuplicates(front);
      DistinctOfDistinct(front);
      assert xs[|xs| - 1] !in front by {
        forall i | 0 <= i < |front| ensures front[i] != xs[|xs| - 1] {
          assert xs[i] != xs[|xs| - 1];
        }
      }
      assert xs == front + [xs[|xs| - 1]];
    }
  }

  // ---- Constants ----------------------------------------------------------------------

  /** A constant whose type is t or derives directly from t. */
  predicate IsDirectConstant(e: Expr, t: string)
  {
    e.ConstantExpr? && (e.ty.name == t || e.ty.baseName == t)
  }

  /** A constant whose type is an array of t. */
  predicate IsArrayConstant(e: Expr, t: string)
  {
    e.ConstantExpr? && e.ty.baseName == ArrayTypeName && e.ty.element == Some(t)
  }

  /** The values of the direct constants of t among the nodes, in order; a value that is not a
      notation object fails the cast. */
  function DirectValues(nodes: seq<Expr>, t: string): Result<seq<TermRef>, ExtensionError>
  {
    if nodes == [] then Ok([])
    else
      var front :- DirectValues(nodes[..|nodes| - 1], t);
      var e := nodes[|nodes| - 1];
      if !IsDirectConstant(e, t) then Ok(front)
      else if e.value.TermValue? then Ok(front + [e.value.term])
      else Err(InvalidCast)
  }

  /** The first element of each array constant of t among the nodes, in order; an empty
      array has no first element, and a value that is not an array fails the cast. */
  function ArrayFirsts(nodes: seq<Expr>, t: string): Result<seq<TermRef>, ExtensionError>
  {
    if nodes == [] then Ok([])
    else
      var front :- ArrayFirsts(nodes[..|nodes| - 1], t);
      var e := nodes[|nodes| - 1];
      if !IsArrayConstant(e, t) then Ok(front)
      else if !e.value.ArrayValue? then Err(InvalidCast)
      else if e.value.items == [] then Err(EmptyArray)
      else Ok(front + [e.value.items[0]])
  }

  /** The notation objects of type t an expression holds: the distinct direct constants, then
      the distinct first elements of its arrays of t. */
  function GetConstants(e: Expr, t: string): Result<seq<TermRef>, ExtensionError>
  {
    var c0 :- DirectValues(Nodes(e), t);
    var c1 :- ArrayFirsts(Nodes(e), t);
    Ok(Distinct(c0) + Distinct(c1))
  }

  /** The direct values fail exactly when a matching constant holds no notation object, and
      otherwise are exactly the objects the matching constants hold. */
  lemma {:induction false} DirectValuesSpec(nodes: seq<Expr>, t: string)
    ensures DirectValues(nodes, t).Ok? <==>
      forall i :: 0 <= i < |nodes| && IsDirectConstant(nodes[i], t) ==> nodes[i].value.TermValue?
    ensures DirectValues(nodes, t).Ok? ==> forall x :: x in DirectValues(nodes, t).value <==>
      exists i :: 0 <= i < |nodes| && IsDirectConstant(nodes[i], t) && nodes[i].value == TermValue(x)
  {
    if nodes != [] {
      var front := nodes[..|nodes| - 1];
      DirectValuesSpec(front, t);
      assert forall i :: 0 <= i < |front| ==> front[i] == nodes[i];
      var last := |nodes| - 1;
      if DirectValues(nodes, t).Ok? {
        forall x ensures x in DirectValues(nodes, t).value <==>
          exists i :: 0 <= i < |nodes| && IsDirectConstant(nodes[i], t) && nodes[i].value == TermValue(x)
        {
          if exists i :: 0 <= i < |nodes| && IsDirectConstant(nodes[i], t) && nodes[i].value == TermValue(x) {
            var i :| 0 <= i < |nodes| && IsDirectConstant(nodes[i], t) && nodes[i].value == TermValue(x);
            if i < last {
              assert IsDirectConstant(front[i], t) && front[i].value == TermValue(x);
            }
          }
        }
      }
    }
  }

  /** The array firsts fail exactly when a matching constant is not a nonempty array, and
      otherwise are exactly the first elements of the matching arrays. */
  lemma {:induction false} ArrayFirstsSpec(nodes: seq<Expr>, t: string)
    ensures ArrayFirsts(nodes, t).Ok? <==>
      forall i :: 0 <= i < |nodes| && IsArrayConstant(nodes[i], t) ==>
        nodes[i].value.ArrayValue? && nodes[i].value.items != []
    ensures ArrayFirsts(nodes, t).Ok? ==> forall x :: x in ArrayFirsts(nodes, t).value <==>
      exists i :: 0 <= i < |nodes| && IsArrayConstant(nodes[i], t) && nodes[i].value.items[0] == x
  {
    if nodes != [] {
      var front := nodes[..|nodes| - 1];
      ArrayFirstsSpec(front, t);
      assert forall i :: 0 <= i < |front| ==> front[i] == nodes[i];
      var last := |nodes| - 1;
      if ArrayFirsts(nodes, t).Ok? {
        forall x ensures x in ArrayFirsts(nodes, t).value <==>
          exists i :: 0 <= i < |nodes| && IsArrayConstant(nodes[i], t) && nodes[i].value.items[0] == x
        {
          if exists i :: 0 <= i < |nodes| && IsArrayConstant(nodes[i], t) && nodes[i].value.items[0] == x {
            var i :| 0 <= i < |nodes| && IsArrayConstant(nodes[i], t) && nodes[i].value.items[0] == x;
            if i < last {
              assert IsArrayConstant(front[i], t) && front[i].value.items[0] == x;
            }
          }
        }
      }
    }
  }

  /** GetConstants fails exactly when a matching constant holds no notation object or a
      matching array constant holds no first element. */
  lemma GetConstantsOk(e: Expr, t: string)
    ensures GetConstants(e, t).Ok? <==>
      (forall i :: 0 <= i < |Nodes(e)| && IsDirectConstant(Nodes(e)[i], t) ==> Nodes(e)[i].value.TermValue?) &&
      (forall i :: 0 <= i < |Nodes(e)| && IsArrayConstant(Nodes(e)[i], t) ==>
         Nodes(e)[i].value.ArrayValue? && Nodes(e)[i].value.items != [])
  {
    DirectValuesSpec(Nodes(e), t);
    ArrayFirstsSpec(Nodes(e), t);
    assert GetConstants(e, t).Ok? <==> DirectValues(Nodes(e), t).Ok? && ArrayFirsts(Nodes(e), t).Ok?;
  }

  /** The result is two groups, each without repeats and with no de-duplication between them:
      first the objects held by the constants of t (or of a type derived directly from t),
      then the first elements of the arrays of t. */
  lemma GetConstantsGroups(e: Expr, t: string)
    ensures GetConstants(e, t).Ok? <==>
      (forall i :: 0 <= i < |Nodes(e)| && IsDirectConstant(Nodes(e)[i], t) ==> Nodes(e)[i].value.TermValue?) &&
      (forall i :: 0 <= i < |Nodes(e)| && IsArrayConstant(Nodes(e)[i], t) ==>
         Nodes(e)[i].value.ArrayValue? && Nodes(e)[i].value.items != [])
    ensures GetConstants(e, t).Ok? ==> exists k :: (0 <= k <= |GetConstants(e, t).value| &&
      NoDuplicates(GetConstants(e, t).value[..k]) && NoDuplicates(GetConstants(e, t).value[k..]) &&
      (forall x :: x in GetConstants(e, t).value[..k] <==>
         exists i :: 0 <= i < |Nodes(e)| && IsDirectConstant(Nodes(e)[i], t) && Nodes(e)[i].value == TermValue(x)) &&
      (forall x :: x in GetConstants(e, t).value[k..] <==>
         exists i :: 0 <= i < |Nodes(e)| && IsArrayConstant(Nodes(e)[i], t) && Nodes(e)[i].value.items[0] == x))
  {
    GetConstantsOk(e, t);
    var ns := Nodes(e);
    DirectValuesSpec(ns, t);
    ArrayFirstsSpec(ns, t);
    var r := GetConstants(e, t);
    if r.Ok? {
      var c0, c1 := DirectValues(ns, t).value, ArrayFirsts(ns, t).value;
      assert r.value == Distinct(c0) + Distinct(c1);
      DistinctSpec(c0);
      DistinctSpec(c1);
      var k := |Distinct(c0)|;
      assert r.value[..k] == Distinct(c0);
      assert r.value[k..] == Distinct(c1);
      forall x
        ensures x in r.value[..k] <==>
          exists i :: 0 <= i < |ns| && IsDirectConstant(ns[i], t) && ns[i].value == TermValue(x)
      {
        assert x in Distinct(c0) <==> x in c0;
      }
      forall x
        ensures x in r.value[k..] <==>
          exists i :: 0 <= i < |ns| && IsArrayConstant(ns[i], t) && ns[i].value.items[0] == x
      {
        assert x in Distinct(c1) <==> x in c1;
      }
    }
  }

  /** The direct values of two node lists in turn: they fail when either list's do, and are
      otherwise the first list's values followed by the second's. */
  lemma {:induction false} DirectValuesAppend(a: seq<Expr>, b: seq<Expr>, t: string)
    ensures DirectValues(a + b, t).Ok? <==> DirectValues(a, t).Ok? && DirectValues(b, t).Ok?
    ensures DirectValues(a + b, t).Ok? ==>
      DirectValues(a + b, t).value == DirectValues(a, t).value + DirectValues(b, t).value
    ensures DirectValues(a, t).Err? ==> DirectValues(a + b, t) == DirectValues(a, t)
    ensures DirectValues(a, t).Ok? && DirectValues(b, t).Err? ==> DirectValues(a + b, t).Err? && DirectValues(a + b, t).error == DirectValues(b, t).error
    decreases |b|
  {
    if b == [] {
      assert a + b == a;
    } else {
      var front := b[..|b| - 1];
      DirectValuesAppend(a, front, t);
      assert (a + b)[..|a + b| - 1] == a + front;
      assert (a + b)[|a + b| - 1] == b[|b| - 1];
    }
  }

  /** The array firsts of two node lists in turn: they fail when either list's do, and are
      otherwise the first list's firsts followed by the second's. */
  lemma {:induction false} ArrayFirstsAppend(a: seq<Expr>, b: seq<Expr>, t: string)
    ensures ArrayFirsts(a + b, t).Ok? <==> ArrayFirsts(a, t).Ok? && ArrayFirsts(b, t).Ok?
    ensures ArrayFirsts(a + b, t).Ok? ==>
      ArrayFirsts(a + b, t).value == ArrayFirsts(a, t).value + ArrayFirsts(b, t).value
    ensures ArrayFirsts(a, t).Err? ==> ArrayFirsts(a + b, t) == ArrayFirsts(a, t)
    ensures ArrayFirsts(a, t).Ok? && ArrayFirsts(b, t).Err? ==> ArrayFirsts(a + b, t).Err? && ArrayFirsts(a + b, t).error == ArrayFirsts(b, t).error
    decreases |b|
  {
    if b == [] {
      assert a + b == a;
    } else {
      var front := b[..|b| - 1];
      ArrayFirstsAppend(a, front, t);
      assert (a + b)[..|a + b| - 1] == a + front;
      assert (a + b)[|a + b| - 1] == b[|b| - 1];
    }
  }

  /** An object held both directly and as an array's first element is listed twice. */
  lemma CrossGroupDuplicate(x: TermRef)
    ensures GetConstants(
      OperationExpr(ArrayIndex, TensorType, [ConstantExpr(TensorType, TermValue(x)), ConstantExpr(ArrayOf(TensorTypeName, 1), ArrayValue([x]))]),
      TensorTypeName) == Ok([x, x])
  {
    var a := ConstantExpr(TensorType, TermValue(x));
    var b := ConstantExpr(ArrayOf(TensorTypeName, 1), ArrayValue([x]));
    var e := OperationExpr(ArrayIndex, TensorType, [a, b]);
    NodesOfPair(a, b);
    assert Nodes(e) == [e, a, b];
    assert [e, a, b][..2] == [e, a] && [e, a][..1] == [e] && [e][..0] == [];
    assert !IsDirectConstant(e, TensorTypeName) && !IsArrayConstant(e, TensorTypeName);
    assert IsDirectConstant(a, TensorTypeName) && !IsArrayConstant(a, TensorTypeName);
    assert !IsDirectConstant(b, TensorTypeName) && IsArrayConstant(b, TensorTypeName);
    assert DirectValues([e], TensorTypeName) == Ok([]);
    assert [e, a][|[e, a]| - 1] == a;
    assert DirectValues([e, a], TensorTypeName) == Ok([] + [x]);
    assert [e, a, b][|[e, a, b]| - 1] == b;
    assert [] + [x] == [x];
    assert DirectValues([e, a, b], TensorTypeName) == Ok([x]);
    assert ArrayFirsts([e], TensorTypeName) == Ok([]);
    assert ArrayFirsts([e, a], TensorTypeName) == Ok([]);
    assert ArrayFirsts([e, a, b], TensorTypeName) == Ok([] + [x]);
    assert Distinct([x]) == [x] by {
      assert [x][..0] == [];
    }
    assert GetConstants(e, TensorTypeName) == Ok(Distinct([x]) + Distinct([x]));
    assert [x] + [x] == [x, x];
  }

  // ---- Parameters ---------------------------------------------------------------------

  /** An entry of the term registry: the registered object and the names of every type it is
      an instance of. */
  datatype RegisteredTerm = RegisteredTerm(term: TermRef, types: set<string>)

  /** A parameter node whose name the registry binds to an instance of t. */
  predicate IsTermParameter(e: Expr, registry: map<string, RegisteredTerm>, t: string)
  {
    e.ParameterExpr? && e.name in registry && t in registry[e.name].types
  }

  /** The registered objects of t that the parameter nodes among the nodes name, in order. */
  function ParametersOf(nodes: seq<Expr>, registry: map<string, RegisteredTerm>, t: string): seq<TermRef>
  {
    if nodes == [] then []
    else
      var e := nodes[|nodes| - 1];
      ParametersOf(nodes[..|nodes| - 1], registry, t) + (if IsTermParameter(e, registry, t) then [registry[e.name].term] else [])
  }

  /** The registered objects of t named by an expression's parameters, in traversal order and
      with repeats kept. */
  function GetParameters(e: Expr, registry: map<string, RegisteredTerm>, t: string): seq<TermRef>
  {
    ParametersOf(Nodes(e), registry, t)
  }

  /** Collecting over two node lists in turn gives the first list's objects, then the second's. */
  lemma {:induction false} ParametersOfAppend(a: seq<Expr>, b: seq<Expr>, registry: map<string, RegisteredTerm>, t: string)
    ensures ParametersOf(a + b, registry, t) == ParametersOf(a, registry, t) + ParametersOf(b, registry, t)
    decreases |b|
  {
    if b == [] {
      assert a + b == a;
    } else {
      var front := b[..|b| - 1];
      ParametersOfAppend(a, front, registry, t);
      assert (a + b)[..|a + b| - 1] == a + front;
      assert (a + b)[|a + b| - 1] == b[|b| - 1];
    }
  }

  /** An object is collected exactly when some parameter node names it in the registry as an
      instance of t; the result has one entry per such node. */
  lemma {:induction false} ParametersOfSpec(nodes: seq<Expr>, registry: map<string, RegisteredTerm>, t: string, x: TermRef)
    ensures x in ParametersOf(nodes, registry, t) <==>
      exists i :: 0 <= i < |nodes| && IsTermParameter(nodes[i], registry, t) && registry[nodes[i].name].term == x
    ensures |ParametersOf(nodes, registry, t)| == |set i | 0 <= i < |nodes| && IsTermParameter(nodes[i], registry, t)|
  {
    if nodes != [] {
      var front := nodes[..|nodes| - 1];
      var last := |nodes| - 1;
      ParametersOfSpec(front, registry, t, x);
      assert forall i :: 0 <= i < |front| ==> front[i] == nodes[i];
      if exists i :: 0 <= i < |nodes| && IsTermParameter(nodes[i], registry, t) && registry[nodes[i].name].term == x {
        var i :| 0 <= i < |nodes| && IsTermParameter(nodes[i], registry, t) && registry[nodes[i].name].term == x;
        if i < last {
          assert IsTermParameter(front[i], registry, t) && registry[front[i].name].term == x;
        }
      }
      var s := set i | 0 <= i < |nodes| && IsTermParameter(nodes[i], registry, t);
      var sf := set i | 0 <= i < |front| && IsTermParameter(front[i], registry, t);
      if IsTermParameter(nodes[last], registry, t) {
        assert s == sf + {last};
      } else {
        assert s == sf;
      }
    }
  }

  /** The same parameter used twice is collected twice. */
  lemma ParameterRepeats(p: Expr, registry: map<string, RegisteredTerm>, t: string)
    requires IsTermParameter(p, registry, t)
    ensures GetParameters(OperationExpr(Multiply, p.ty, [p, p]), registry, t)
         == [registry[p.name].term, registry[p.name].term]
  {
    var e := OperationExpr(Multiply, p.ty, [p, p]);
    NodesOfPair(p, p);
    ParametersOfAppend([e], [p] + [p], registry, t);
    ParametersOfAppend([p], [p], registry, t);
    assert Nodes(e) == [e] + ([p] + [p]);
    assert [e][..0] == [] && [p][..0] == [];
  }

  // ---- Type tests ---------------------------------------------------------------------

  /** A constant whose type is exactly Tensor: a tensor not yet given a definition. */
  predicate IsUndefinedTensor(e: Expr)
  {
    e.ConstantExpr? && e.ty.name == TensorTypeName
  }

  /** Fails exactly when the expression's type is not exactly t. */
  function ThrowIfNotType(e: Expr, t: string): (r: Outcome<ExtensionError>)
    ensures r.Pass? <==> e.ty.name == t
    ensures r.Fail? ==> r.error == WrongType(t)
  {
    if e.ty.name != t then Fail(WrongType(t)) else Pass
  }

  /** An undefined tensor passes the Tensor type test, and a constant of a type derived from
      Tensor is not an undefined tensor. */
  lemma UndefinedTensorType(e: Expr)
    ensures IsUndefinedTensor(e) ==> ThrowIfNotType(e, TensorTypeName).Pass?
    ensures e.ConstantExpr? && ThrowIfNotType(e, TensorTypeName).Fail? ==> !IsUndefinedTensor(e)
  {
  }
}
