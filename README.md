# Adrien tensor notation and Tile code generation, in Dafny

Adrien is a C# library for writing tensor computations in a mathematical notation
and compiling them for PlaidML. This project models two parts of it and proves properties of
the model.

**The notation layer** is modelled as follows.

- Indices. An index is either a constant index or an index expression. A constant index belongs to an index set and has an order in it. An index expression is built by index arithmetic.
- Index sets. An index set is a sorted set of indices with one index per order. It has constructors, a guarded element lookup, deconstruction and tuple conversions.
- Tensors. A tensor has a write-once definition slot. Its indexer getters build host expressions that access an array. Its indexer setters check the slot and fill it with an assignment or a contraction.
- Tensor expressions. A tensor expression carries a host expression, an optional left-hand tensor and a shape. It has arithmetic builders and queries for the tensors and index parameters it holds.
- Element-wise unary operators. They are applied by indexing and composed with the pipe. Combining two of them pointwise gives another operator.
- The extension functions over host expressions:
  - the translation of node types and operator method calls to tensor operators;
  - the collection of the constants and parameters of an expression;
  - the type guards.

**The code generator** is modelled as follows.

- The generic language generator. It is a tree visitor. It renders each subtree to one text fragment on a context stack and brackets nested binary operators.
- The Tile writer. It holds the operator templates and writes tensor labels in upper case and index-set labels in lower case.
- The Tile generator:
  - element-wise assignments, which queue variable definitions;
  - subscripts, which carry the dimension variable of an input tensor;
  - the naming of dimension variables;
  - the function prologue it writes around the generated text.

The host's expression graphs (System.Linq.Expressions) are modelled as a datatype `Expr`
(module `HostExpressions`). A notation object held in a graph is modelled as a reference `TermRef` that names it.

The generator classes are Dafny classes. Their methods change the context, the queue of definitions, the dimension map and the function text.

- Each method is proved against a pure specification (`Render`, `TileVisit`, `DimensionNames`, `Generate`).
- Each specification is proved equal to a recursive reference rendering.
- The properties listed in the table below are proved about that rendering.

The tensor is a class with a mutable definition slot. The index set is a class holding its
sorted indices. Its dimension constructor fills them with a loop; its constructors from indices
assign the sorted set of the given indices.

**One place where the code and the written description disagree.** The description of the
tree visitor says the children are visited right before left. The code pops the right child's text first and builds the operand array in the order
[left, right] (LanguageGenerator.cs:31-60). That works only if the left child is visited first. The model follows the code: the unshown tree visitor visits the left child, then the right one.

**A second disagreement.** The written description's example of an element-wise definition
V3 = V1 + V2 has the generator queue the statement "V3 = V1 + V2;". The Tile writer's template
table (TileWriter.cs:13-21) has no entry for the element-wise assignment. The language writer
base class is not part of this model, and its template lookup is taken to fail on a missing
entry. Under that assumption the element-wise visit (TileGenerator.cs:43-56) always fails with
the Tile writer, and the model proves that nothing is ever queued
(TileGeneration.TileWriterQueuesNothing). The model follows the code.

## Model

| member | source | states |
|---|---|---|
| ExpressionExtensions.ToOp | src/spikes/2/Adrien.Core/Expressions/ExpressionExtensions.cs:15-28 | An unsupported node type fails with NotSupported of that node type |
| ExpressionExtensions.ToOpDomain | src/spikes/2/Adrien.Core/Expressions/ExpressionExtensions.cs:17-26 | The translation succeeds exactly on Index, Multiply, Divide, Add, Subtract and Power |
| ExpressionExtensions.ToOpRoundTrip | src/spikes/2/Adrien.Core/Expressions/ExpressionExtensions.cs:19-24 | The reverse table undoes the translation, and the translation undoes the reverse table |
| ExpressionExtensions.ToOpInjective | src/spikes/2/Adrien.Core/Expressions/ExpressionExtensions.cs:19-24 | No two node types translate to the same tensor operator |
| ExpressionExtensions.MethodCallToTensorOp | src/spikes/2/Adrien.Core/Expressions/ExpressionExtensions.cs:609-618 | Op_Sum, Op_Square and Op_Sqrt translate to Sum, Square and Sqrt; any other method name fails with NotImplemented, which carries no message |
| ExpressionExtensions.MethodCallDomain | src/spikes/2/Adrien.Core/Expressions/ExpressionExtensions.cs:611-617 | Only Op_Sum, Op_Square and Op_Sqrt translate: to Sum, Square and Sqrt. No call translates to an operator that a node type gives |
| ExpressionExtensions.DistinctSpec | src/spikes/2/Adrien.Core/Expressions/ExpressionExtensions.cs:45 | De-duplication keeps exactly the elements of its input and repeats none |
| ExpressionExtensions.DistinctOfDistinct | src/spikes/2/Adrien.Core/Expressions/ExpressionExtensions.cs:45 | A list without repeats comes out of de-duplication unchanged |
| ExpressionExtensions.DirectValuesSpec | src/spikes/2/Adrien.Core/Expressions/ExpressionExtensions.cs:38-47 | The cast fails exactly when a matching constant holds no notation object. Otherwise the collected values are exactly those of the constants whose type is T or derives from T |
| ExpressionExtensions.ArrayFirstsSpec | src/spikes/2/Adrien.Core/Expressions/ExpressionExtensions.cs:49-61 | The first-element lookup fails exactly when a matching array constant holds no array or an empty one. Otherwise the collected values are exactly the first elements of the arrays of T |
| ExpressionExtensions.GetConstantsOk | src/spikes/2/Adrien.Core/Expressions/ExpressionExtensions.cs:36-66 | GetConstants fails exactly when a matching constant holds no notation object, or a matching array constant holds no array or an empty one |
| ExpressionExtensions.GetConstantsGroups | src/spikes/2/Adrien.Core/Expressions/ExpressionExtensions.cs:36-66 | The result is the de-duplicated direct constants followed by the de-duplicated array firsts. It fails exactly when either group fails |
| ExpressionExtensions.DirectValuesAppend | src/spikes/2/Adrien.Core/Expressions/ExpressionExtensions.cs:40-46 | Collecting direct constants over two node lists in turn gives the first list's values, then the second's. When a list fails, its error is the one reported |
| ExpressionExtensions.ArrayFirstsAppend | src/spikes/2/Adrien.Core/Expressions/ExpressionExtensions.cs:51-60 | The same for the array firsts |
| ExpressionExtensions.CrossGroupDuplicate | src/spikes/2/Adrien.Core/Expressions/ExpressionExtensions.cs:63-65 | An object held both directly and as an array's first element is listed twice: the two groups are not de-duplicated against each other |
| ExpressionExtensions.ParametersOfAppend | src/spikes/2/Adrien.Core/Expressions/ExpressionExtensions.cs:76-82 | Collecting parameters over two node lists gives the first list's objects, then the second's |
| ExpressionExtensions.ParametersOfSpec | src/spikes/2/Adrien.Core/Expressions/ExpressionExtensions.cs:74-83 | An object is collected exactly when a parameter names it in the registry as an instance of T. There is one entry per such parameter |
| ExpressionExtensions.ParameterRepeats | src/spikes/2/Adrien.Core/Expressions/ExpressionExtensions.cs:76-82 | A parameter used twice is collected twice (no de-duplication) |
| ExpressionExtensions.ThrowIfNotType | src/spikes/2/Adrien.Core/Expressions/ExpressionExtensions.cs:621-627 | Passes exactly when the expression's type is exactly T. Otherwise it fails with WrongType |
| ExpressionExtensions.UndefinedTensorType | src/spikes/2/Adrien.Core/Expressions/ExpressionExtensions.cs:621-631 | An undefined tensor passes the Tensor type guard. A constant that fails the guard is not an undefined tensor |
| HostExpressions.ArrayOf | src/spikes/2/Adrien.Core/Notation/Tensor.cs:56 | An array type derives from Array and has the given element type |
| HostExpressions.Nodes | src/spikes/2/Adrien.Core/Expressions/ExpressionExtensions.cs:40 | The traversal lists the expression itself first |
| Indexing.ConstantIndexOf | src/spikes/2/Adrien.Core/Notation/Index.cs:33-39 | A constant index with the given set, order, axis length and name |
| Indexing.ExpressionIndexOf | src/spikes/2/Adrien.Core/Notation/Index.cs:41-46 | An index expression with no set, whose host expression is the given one |
| Indexing.IntIndex | src/spikes/2/Adrien.Core/Notation/Index.cs:48-56 | An integer becomes an index expression named "index_expr_int_" followed by the integer, holding the integer constant |
| Indexing.IndexExpression | src/spikes/2/Adrien.Core/Notation/Index.cs:28-29 | A constant index stands for a constant holding itself. An index expression stands for its expression |
| Indexing.GetIndexType | src/spikes/2/Adrien.Core/Notation/Index.cs:87-98 | Index for a constant index; the constant's type for a constant expression; TensorIndexExpression otherwise |
| Indexing.IntIndexType | src/spikes/2/Adrien.Core/Notation/Index.cs:87-98 | An integer index has type int, a constant index has type Index, and the two differ |
| Indexing.Negate | src/spikes/2/Adrien.Core/Notation/Index.cs:58-72 | A negation node over the index's expression |
| Indexing.Arithmetic | src/spikes/2/Adrien.Core/Notation/Index.cs:60-84 | A node of the operator over the left and then the right index's expression, typed Index |
| Indexing.CompareTo | src/spikes/2/Adrien.Core/Notation/Index.cs:100-103 | The sign of the result is the sign of the comparison of the orders |
| Indexing.CompareToPreorder | src/spikes/2/Adrien.Core/Notation/Index.cs:100-103 | The comparison is reflexive, antisymmetric, total and transitive: a total preorder in which equal orders tie |
| Indexing.InsertSorted | src/spikes/2/Adrien.Core/Notation/IndexSet.cs:22 | Adding an index keeps the set strictly sorted by order |
| Indexing.InsertPresent | src/spikes/2/Adrien.Core/Notation/IndexSet.cs:22 | An index whose order is already present is not added |
| Indexing.InsertLast | src/spikes/2/Adrien.Core/Notation/IndexSet.cs:16 | An index above every order present is added at the end |
| Indexing.SortedCount | src/spikes/2/Adrien.Core/Notation/IndexSet.cs:32-34 | A strictly sorted set holds one index per order |
| Indexing.SortedIndicesSpec | src/spikes/2/Adrien.Core/Notation/IndexSet.cs:20-23 | The set made from a sequence is strictly sorted. It holds only indices of the sequence and every order of the sequence exactly once |
| Indexing.EqualOrdersCollapse | src/spikes/2/Adrien.Core/Notation/IndexSet.cs:20-23 | An index whose order is already in the sequence does not change the set |
| Indexing.EqualOrdersPair | src/spikes/2/Adrien.Core/Notation/IndexSet.cs:20-23 | Two indices of the same order collapse into one |
| Indexing.OutOfOrderSorted | src/spikes/2/Adrien.Core/Notation/IndexSet.cs:20-23 | Indices given out of order come out sorted |
| Indexing.DimensionIndices | src/spikes/2/Adrien.Core/Notation/IndexSet.cs:14-17 | One index per position below n: the k-th has order k and belongs to the set |
| Indexing.IndexSet.FromDimension | src/spikes/2/Adrien.Core/Notation/IndexSet.cs:11-18 | The set holds the dim indices of orders 0 to dim-1 in order (none for dim <= 0), and stays sorted |
| Indexing.IndexSet.FromIndices | src/spikes/2/Adrien.Core/Notation/IndexSet.cs:20-23 | The set holds the given indices sorted by order, with equal orders collapsed |
| Indexing.IndexSet.ForTensor | src/spikes/2/Adrien.Core/Notation/TensorIndexers.cs:22 | The same, and the set records the tensor it was made for |
| Indexing.IndexSet.CheckIndices | src/spikes/2/Adrien.Core/Notation/IndexSet.cs:96-99 | The guard fails exactly when the count exceeds the number of indices |
| Indexing.IndexSet.At | src/spikes/2/Adrien.Core/Notation/IndexSet.cs:103-110 | Succeeds exactly for positions inside the set, giving the index there. Past the end plus one it fails by the guard; at the end or below zero it fails by the element lookup |
| Indexing.IndexSet.ToIndex | src/spikes/2/Adrien.Core/Notation/IndexSet.cs:112-116 | Succeeds exactly for a nonempty set, giving its first index |
| Indexing.IndexSet.Deconstruct2 | src/spikes/2/Adrien.Core/Notation/IndexSet.cs:71-76 | Succeeds exactly with at least two indices, giving the first two |
| Indexing.IndexSet.Deconstruct3 | src/spikes/2/Adrien.Core/Notation/IndexSet.cs:78-84 | Succeeds exactly with at least three indices, giving the first three |
| Indexing.IndexSet.Deconstruct4 | src/spikes/2/Adrien.Core/Notation/IndexSet.cs:86-93 | Succeeds exactly with at least four indices, giving the first four |
| Indexing.GuardOffByOne | src/spikes/2/Adrien.Core/Notation/IndexSet.cs:96-110 | The guard lets the position equal to the count through, and the element lookup then fails |
| Indexing.DeconstructGuards | src/spikes/2/Adrien.Core/Notation/IndexSet.cs:71-93 | Every deconstruction guards for two only. With fewer than two indices the guard refuses; otherwise a missing third or fourth index is refused by the element lookup |
| Indexing.One | src/spikes/2/Adrien.Core/Notation/IndexSet.cs:38-43 | A new set of one index, and that index. The name base is not passed on |
| Indexing.Two | src/spikes/2/Adrien.Core/Notation/IndexSet.cs:45-51 | A new set of two indices, and its indices in order |
| Indexing.Three | src/spikes/2/Adrien.Core/Notation/IndexSet.cs:53-60 | A new set of three indices, and its indices in order |
| Indexing.Four | src/spikes/2/Adrien.Core/Notation/IndexSet.cs:62-67 | A new set of four indices, deconstructed into its indices in order |
| Indexing.FromTuple | src/spikes/2/Adrien.Core/Notation/IndexSet.cs:118-146 | A tuple of two to seven indices becomes the sorted set of those indices |
| Tensors.Zeros | src/spikes/2/Adrien.Core/Notation/Tensor.cs:222 | The axis lengths of a new int array: n zeros |
| Tensors.StoredIndices | src/spikes/2/Adrien.Core/Notation/Tensor.cs:163-203 | Every setter keeps its indices, except the six-index setter, which keeps only the first five |
| Tensors.Tensor.constructor | src/spikes/2/Adrien.Core/Notation/Tensor.cs:12-15 | The name and axis lengths as given, and an empty definition slot |
| Tensors.Tensor.ToTensorExpression | src/spikes/2/Adrien.Core/Notation/Tensor.cs:45-48 | The conversion gives a tensor variable that is an undefined tensor, with no shape and no left-hand tensor |
| Tensors.Tensor.ThrowIfAlreadyAssigned | src/spikes/2/Adrien.Core/Notation/Tensor.cs:209-215 | Fails with AlreadyAssigned exactly when the slot already has its index set |
| Tensors.Tensor.ThrowIfIndicesExceedRank | src/spikes/2/Adrien.Core/Notation/Tensor.cs:217-220 | Fails with IndicesExceedRank exactly when the count exceeds the rank |
| Tensors.Tensor.GetBySet | src/spikes/2/Adrien.Core/Notation/Tensor.cs:50-60 | Succeeds exactly when the rank is at most the set's count. It gives an access into an empty tensor array with one parameter named after the set. Otherwise it fails |
| Tensors.Tensor.GetByIndices | src/spikes/2/Adrien.Core/Notation/Tensor.cs:68-197 | For one to seven indices: succeeds exactly when the rank is at least the number of indices. It gives an access into an empty tensor array with one integer parameter per index, named after it |
| Tensors.Tensor.SetBySet | src/spikes/2/Adrien.Core/Notation/Tensor.cs:61-65 | Fails and changes nothing if the slot is taken. Otherwise it stores the set and the assignment of the value |
| Tensors.Tensor.SetByIndices | src/spikes/2/Adrien.Core/Notation/Tensor.cs:177-181 | Fails and changes nothing if the slot is taken. Otherwise it stores a new sorted set of the kept indices and the assignment of the value |
| Tensors.Tensor.OfRank | src/spikes/2/Adrien.Core/Notation/Tensor.cs:222-270 | OneD to SevenD give a new, unassigned tensor of that rank, every axis of length 0 |
| Tensors.Tensor.WithIndexSet | src/spikes/2/Adrien.Core/Notation/Tensor.cs:17-25 | The tensor, and a new set with one index per axis named from the base. The set's count equals the rank |
| Tensors.Tensor.OfRankWithIndexSet | src/spikes/2/Adrien.Core/Notation/Tensor.cs:230-271 | TwoD to SevenD with a set out-parameter give a set of one index per axis |
| Tensors.Tensor.OfRankWithIndices | src/spikes/2/Adrien.Core/Notation/Tensor.cs:223-252 | OneD to FourD with index out-parameters give the indices of one new set: all share that fresh parent, the k-th has order k, axis length 0 and the k-th name from the base |
| Tensors.EmptyAccessHoldsNoTensor | src/spikes/2/Adrien.Core/Notation/Tensor.cs:56-57 | A consequence of merging the generic and non-generic tensors into one class: the generic tensor's accesses index an empty array of element type Tensor, so collecting the tensors they hold fails with EmptyArray. On the host the array's element type is Tensor of T, which GetConstants of Tensor skips, giving an empty list |
| Tensors.TensorExpressionHoldsItself | src/spikes/2/Adrien.Core/Notation/Tensor.cs:45-48 | A tensor converted to an expression holds exactly itself |
| Tensors.SixthIndexDropped | src/spikes/2/Adrien.Core/Notation/Tensor.cs:180 | With six indices of distinct orders, the stored set has five indices and none of the sixth index's order |
| TensorIndexers.Wrapper | src/spikes/2/Adrien.Core/Notation/TensorIndexers.cs:14-15 | The indexed constant is an array of tensors holding exactly the tensor itself |
| TensorIndexers.Get | src/spikes/2/Adrien.Core/Notation/TensorIndexers.cs:8-18 | For one to eight indices: succeeds exactly when the rank guard passes, giving the access with one integer parameter per index. Otherwise it fails with IndicesExceedRank. The getters of the contraction indexers (TensorIndexersForContractions.cs:8-18) are the same access with the same guard |
| TensorIndexers.Set | src/spikes/2/Adrien.Core/Notation/TensorIndexers.cs:19-25 | Fails and changes nothing if the slot is taken. Otherwise it stores a new set of the tensor and its indices, and a contraction of the value over that same set |
| TensorIndexers.AccessHoldsTensor | src/spikes/2/Adrien.Core/Notation/TensorIndexers.cs:13-17 | The access holds exactly the tensor it was built for |
| TensorIndexers.AccessParameters | src/spikes/2/Adrien.Core/Notation/TensorIndexers.cs:16-17 | With the indices registered, the access's index parameters are the indices, in order and with repeats kept |
| ContractionIndexers.Wrap | src/spikes/2/Adrien.Core/Notation/TensorIndexersForContractions.cs:22-29 | The value is taken as a contraction exactly when it is a method call, and summed otherwise |
| ContractionIndexers.Set | src/spikes/2/Adrien.Core/Notation/TensorIndexersForContractions.cs:19-30 | Fails and changes nothing if the slot is taken. Otherwise it stores a new set of the tensor and its indices, with the wrapped value |
| TensorExpressions.FromExpression | src/spikes/2/Adrien.Core/Notation/TensorExpression.cs:44-48 | The bare constructor: no left-hand tensor and an empty shape |
| TensorExpressions.Construct | src/spikes/2/Adrien.Core/Notation/TensorExpression.cs:50-76 | The other constructors keep the given left-hand tensor and shape |
| TensorExpressions.Dimensions | src/spikes/2/Adrien.Core/Notation/TensorExpression.cs:26 | One length per axis, in order |
| TensorExpressions.RankIsAxes | src/spikes/2/Adrien.Core/Notation/TensorExpression.cs:26-30 | The rank is the number of axes. There are no dimensions exactly when the shape is empty |
| TensorExpressions.AxisAt | src/spikes/2/Adrien.Core/Notation/TensorExpression.cs:78-84 | Succeeds exactly for an axis inside the shape, giving that axis |
| TensorExpressions.UndefinedSpec | src/spikes/2/Adrien.Core/Notation/TensorExpression.cs:32 | The filter keeps exactly the tensors without a definition. It never grows the list and keeps a list with no defined tensor unchanged |
| TensorExpressions.InputVariablesSpec | src/spikes/2/Adrien.Core/Notation/TensorExpression.cs:32 | Input variables fail exactly when the tensors do. They are the expression's tensors that have no definition |
| TensorExpressions.TensorVariableKinds | src/spikes/2/Adrien.Core/Notation/TensorExpression.cs:38-39 | An undefined tensor is a tensor variable. A constant of a type derived from Tensor is a tensor variable but not an undefined tensor |
| TensorExpressions.Negate | src/spikes/2/Adrien.Core/Notation/TensorExpression.cs:104 | A negation node over the expression that keeps its shape |
| TensorExpressions.Binary | src/spikes/2/Adrien.Core/Notation/TensorExpression.cs:106-116 | A node of the operator over the left and then the right expression. It is typed TensorExpression and carries the left operand's shape |
| TensorExpressions.BinaryTensors | src/spikes/2/Adrien.Core/Notation/TensorExpression.cs:22 | The tensors of an arithmetic result are found exactly when both operands' are, and are exactly the tensors of the two operands |
| TensorExpressions.ToTree | src/spikes/2/Adrien.Core/Notation/TensorExpression.cs:100-102 | The tree is built with the left-hand tensor exactly when the expression has one |
| UnaryOperators.PipeIdentity | src/spikes/2/Adrien.Core/Notation/UnaryOperator.cs:22-23 | The operator that returns its argument is neutral for the pipe on either side |
| UnaryOperators.OfIsReversedPipe | src/spikes/2/Adrien.Core/Notation/UnaryOperator.cs:18 | Indexing one operator with another is the pipe in the reverse order |
| UnaryOperators.PipeAssociative | src/spikes/2/Adrien.Core/Notation/UnaryOperator.cs:22-23 | The pipe is associative |
| UnaryOperators.OfBinaryComposes | src/spikes/2/Adrien.Core/Notation/UnaryOperator.cs:18-20 | Indexing a binary operator with u[v] agrees with indexing it with v and then with u, on every pair of arguments |
| UnaryOperators.OfBinaryIdentity | src/spikes/2/Adrien.Core/Notation/UnaryOperator.cs:20 | Indexing a binary operator with the operator that returns its argument leaves its results unchanged |
| UnaryOperators.PointwiseResult | src/spikes/2/Adrien.Core/Notation/UnaryOperator.cs:25-43 | A pointwise combination builds the operator's node over both operators' results on the same argument, in order, with no shape and no left-hand tensor |
| UnaryOperators.PointwiseAgainstBuilder | src/spikes/2/Adrien.Core/Notation/UnaryOperator.cs:25-43 | It builds the same node as the tensor expression operator, but drops the shape the builder keeps |
| UnaryOperators.PointwiseAfterPipe | src/spikes/2/Adrien.Core/Notation/UnaryOperator.cs:22-43 | A pipe in front of a pointwise combination distributes over both operands |
| Generation.Context.Push | src/spikes/2/Adrien.Base/Generator/LanguageGenerator.cs:60 | One more fragment, with the open scopes unchanged |
| Generation.Context.Pop | src/spikes/2/Adrien.Base/Generator/LanguageGenerator.cs:37 | Fails exactly on an empty context. Pushing the popped fragment back restores the context |
| Generation.Context.Peek | src/spikes/2/Adrien.Base/Generator/LanguageGenerator.cs:81 | Fails exactly with no scope open. Otherwise it gives the innermost scope's template |
| Generation.Context.Internal | src/spikes/2/Adrien.Base/Generator/LanguageGenerator.cs:27 | Opens a scope whose template is then the innermost one, and keeps the fragments |
| Generation.Context.PopPush | src/spikes/2/Adrien.Base/Generator/LanguageGenerator.cs:37-60 | Popping a pushed fragment gives it back, with the context as before the push |
| Generation.Context.DisposeInternal | src/spikes/2/Adrien.Base/Generator/LanguageGenerator.cs:27-58 | Closing a scope just opened restores the context |
| Generation.Context.Dispose | src/spikes/2/Adrien.Base/Generator/LanguageGenerator.cs:58 | Closing a scope keeps the fragments |
| Generation.RenderOkIffTemplated | src/spikes/2/Adrien.Base/Generator/LanguageGenerator.cs:24-61 | A tree is generated exactly when the writer has a template for every operator in it. Otherwise generation fails for a missing template |
| Generation.RenderBinary | src/spikes/2/Adrien.Base/Generator/LanguageGenerator.cs:31-60 | A binary node's text is its template filled with the left and then the right child's text. Each child is bracketed exactly when it and the node are both nested binary operators |
| Generation.IsOpStart | src/spikes/2/Adrien.Base/Generator/LanguageGenerator.cs:79-82 | Defined exactly when a scope is open and the operator has a template. It is then true exactly when the innermost scope has that template |
| Generation.TopText | src/spikes/2/Adrien.Base/Generator/LanguageGenerator.cs:12 | The text exists exactly when the context is nonempty. With one fragment it is that fragment |
| Generation.PopOperandsBinary | src/spikes/2/Adrien.Base/Generator/LanguageGenerator.cs:31-57 | With both children's texts on top, the operands come out as [left, right], bracketed by the rule, and the rest of the context is left |
| Generation.LanguageGenerator.constructor | src/spikes/2/Adrien.Base/Generator/LanguageGenerator.cs:19-21 | The writer and nested operators as given, an empty context, and no success |
| Generation.LanguageGenerator.Text | src/spikes/2/Adrien.Base/Generator/LanguageGenerator.cs:12 | The text is the top fragment of the context |
| Generation.LanguageGenerator.ContextIsOpStart | src/spikes/2/Adrien.Base/Generator/LanguageGenerator.cs:79-82 | Compares the innermost scope's template with the operator's, as specified by IsOpStart |
| Generation.LanguageGenerator.VisitLeaf | src/spikes/2/Adrien.Base/Generator/LanguageGenerator.cs:63-66 | Pushes the writer's text for the leaf |
| Generation.LanguageGenerator.Visit | src/spikes/2/Adrien.Base/Generator/LanguageGenerator.cs:24-66 | Visiting a subtree pushes exactly its reference rendering, or fails as that rendering fails |
| Generation.LanguageGenerator.VisitInternal | src/spikes/2/Adrien.Base/Generator/LanguageGenerator.cs:24-61 | Visiting an operator node pushes exactly its reference rendering, or fails as that rendering fails |
| Generation.LanguageGenerator.AfterVisitTree | src/spikes/2/Adrien.Base/Generator/LanguageGenerator.cs:68-77 | Succeeds, and sets success, exactly when the context holds one fragment. Otherwise it fails with the count |
| Generation.LanguageGenerator.VisitTree | src/spikes/2/Adrien.Base/Generator/LanguageGenerator.cs:24-77 | From a fresh context it succeeds exactly when the tree renders, and the text is then the rendering |
| Writers.GetOperatorTemplate | src/spikes/2/Adrien.Base/Generator/LanguageGenerator.cs:27 | A template exists exactly for the operators in the writer's table, and it is the table's entry |
| Writers.WriteValueText | src/spikes/2/Adrien.Compiler.PlaidML/Generator/TileWriter.cs:23-32 | The text has the label's length. A kind the writer does not re-case is written as it is |
| TileWriting.TemplateDomain | src/spikes/2/Adrien.Compiler.PlaidML/Generator/TileWriter.cs:13-21 | The Tile writer has templates for exactly Assign, Index, Add, Mul, Sub and Div |
| TileWriting.ValueTextCasing | src/spikes/2/Adrien.Compiler.PlaidML/Generator/TileWriter.cs:23-32 | Tensor labels are written upper case, index-set labels lower case, and the rest as they are |
| TileWriting.ValueTextIdempotent | src/spikes/2/Adrien.Compiler.PlaidML/Generator/TileWriter.cs:27-28 | Writing an already-written label again changes nothing |
| TileWriting.WriteArithmetic | src/spikes/2/Adrien.Compiler.PlaidML/Generator/TileWriter.cs:17-20 | Each arithmetic template writes the left operand, the infix operator, then the right operand |
| TileWriting.WriteAssign | src/spikes/2/Adrien.Compiler.PlaidML/Generator/TileWriter.cs:15 | The assignment template writes "a = b;" |
| TileWriting.WriteIndex | src/spikes/2/Adrien.Compiler.PlaidML/Generator/TileWriter.cs:16 | The index template writes "a[b]" |
| TileWriting.TensorLeafText | src/spikes/2/Adrien.Compiler.PlaidML/Generator/TileWriter.cs:27 | A tensor leaf renders as its upper-cased label |
| TileWriting.BracketRule | src/spikes/2/Adrien.Compiler.PlaidML/Generator/TileGenerator.cs:13-16 | Under an arithmetic operator, an operand is bracketed exactly when it is an operator node of Mul, Add, Sub, Div or Square |
| TileWriting.RenderArithmetic | src/spikes/2/Adrien.Compiler.PlaidML/Generator/TileWriter.cs:17-20 | An arithmetic node renders infix with its left operand first, each operand bracketed by the rule |
| TileWriting.RenderSubscriptOf | src/spikes/2/Adrien.Compiler.PlaidML/Generator/TileWriter.cs:16 | A subscript renders as "x[y]" and never brackets its operands |
| TileWriting.RenderBracketsNested | src/spikes/2/Adrien.Compiler.PlaidML/Generator/TileGenerator.cs:13-16 | a * b + c renders as "(A * B) + C" |
| Text.Upper | src/spikes/2/Adrien.Compiler.PlaidML/Generator/TileWriter.cs:27 | Upper-casing keeps the length |
| Text.Lower | src/spikes/2/Adrien.Compiler.PlaidML/Generator/TileWriter.cs:28 | Lower-casing keeps the length |
| Text.UpperIdempotent | src/spikes/2/Adrien.Compiler.PlaidML/Generator/TileWriter.cs:27 | Upper-casing twice is upper-casing once |
| Text.LowerIdempotent | src/spikes/2/Adrien.Compiler.PlaidML/Generator/TileWriter.cs:28 | Lower-casing twice is lower-casing once |
| Text.NatToString | src/spikes/2/Adrien.Compiler.PlaidML/Generator/TileGenerator.cs:120 | The decimal text of a counter is nonempty and all digits |
| Text.IntToString | src/spikes/2/Adrien.Core/Notation/Index.cs:50 | The decimal text of an integer starts with '-' exactly when the integer is negative |
| Text.SubstituteBinary | src/spikes/2/Adrien.Compiler.PlaidML/Generator/TileWriter.cs:15-20 | A template "{0}" infix "{1}" suffix puts the left operand first and the right operand second |
| TileGeneration.StatementFormat | src/spikes/2/Adrien.Compiler.PlaidML/Generator/TileGenerator.cs:54 | The queued definition is the format "{0} = {1};" applied to the two sides, then a line break |
| TileGeneration.IndexedTensor | src/spikes/2/Adrien.Compiler.PlaidML/Generator/TileGenerator.cs:72-93 | Resolves exactly a tensor leaf, or the tensor leaf on the left of an element-wise assignment. It fails when the leaf is not a tensor, and fails as undetermined otherwise |
| TileGeneration.VisitRenders | src/spikes/2/Adrien.Compiler.PlaidML/Generator/TileGenerator.cs:39-108 | The tile visit of a tree pushes exactly its reference rendering and queues exactly the rendering's definitions, or fails as it fails |
| TileGeneration.InternalRenders | src/spikes/2/Adrien.Compiler.PlaidML/Generator/TileGenerator.cs:39-108 | The same for the operator dispatch |
| TileGeneration.BaseRenders | src/spikes/2/Adrien.Compiler.PlaidML/Generator/TileGenerator.cs:105-107 | The same for the base visit of any other operator |
| TileGeneration.ChildrenRender | src/spikes/2/Adrien.Base/Generator/LanguageGenerator.cs:29 | Visiting the left and then the right child matches rendering them, the right one with one more fragment below |
| TileGeneration.PairRenders | src/spikes/2/Adrien.Compiler.PlaidML/Generator/TileGenerator.cs:65-71 | Visiting the right child and popping it, then the left child and popping it, gives both renderings and leaves the context as it was |
| TileGeneration.ElementWiseRenders | src/spikes/2/Adrien.Compiler.PlaidML/Generator/TileGenerator.cs:43-56 | The element-wise visit matches its reference rendering |
| TileGeneration.SubscriptRenders | src/spikes/2/Adrien.Compiler.PlaidML/Generator/TileGenerator.cs:58-103 | The subscript visit matches its reference rendering |
| TileGeneration.InternalParts | src/spikes/2/Adrien.Compiler.PlaidML/Generator/TileGenerator.cs:39-108 | A successful operator rendering has a template for its operator and successful renderings of both children |
| TileGeneration.RenderTemplated | src/spikes/2/Adrien.Compiler.PlaidML/Generator/TileGenerator.cs:39-108 | A tree renders only if the writer has a template for every operator in it |
| TileGeneration.RenderDefinitionCount | src/spikes/2/Adrien.Compiler.PlaidML/Generator/TileGenerator.cs:54 | A rendering queues one definition per element-wise assignment in the tree |
| TileGeneration.RenderNeverCounts | src/spikes/2/Adrien.Compiler.PlaidML/Generator/TileGenerator.cs:33-37 | No rendering fails on the fragment count: that check is made once, after the visit |
| TileGeneration.TileWriterQueuesNothing | src/spikes/2/Adrien.Compiler.PlaidML/Generator/TileGenerator.cs:43-56 | The Tile writer has no element-wise assignment template, so with it nothing is ever queued. This rests on the assumed strict lookup of the language writer's GetOperatorTemplate, which is not part of this model |
| TileGeneration.SubscriptOfInput | src/spikes/2/Adrien.Compiler.PlaidML/Generator/TileGenerator.cs:94-98 | A subscript of an input tensor renders "T[y:DIM]" with the tensor's dimension variable |
| TileGeneration.SubscriptOfNonInput | src/spikes/2/Adrien.Compiler.PlaidML/Generator/TileGenerator.cs:99-102 | A subscript of a tensor that is not an input renders "T[y]" |
| TileGeneration.SubscriptOfNonTensor | src/spikes/2/Adrien.Compiler.PlaidML/Generator/TileGenerator.cs:73-79 | A subscript whose left child is a value leaf that is not a tensor fails |
| TileGeneration.SubscriptAtAssignment | src/spikes/2/Adrien.Compiler.PlaidML/Generator/TileGenerator.cs:59-63 | At the start of an assignment, a subscript takes the base visit and carries no dimension variable |
| TileGeneration.SubscriptWithoutScope | src/spikes/2/Adrien.Compiler.PlaidML/Generator/TileGenerator.cs:59 | With at most one fragment and no scope open, the assignment test fails on the empty scope stack |
| TileGeneration.Suffixed | src/spikes/2/Adrien.Compiler.PlaidML/Generator/TileGenerator.cs:116-121 | Each appended counter makes the candidate name at least one character longer |
| TileGeneration.FreshCountIsFirstFree | src/spikes/2/Adrien.Compiler.PlaidML/Generator/TileGenerator.cs:118-121 | The loop stops at the first free candidate, and every candidate before it was taken |
| TileGeneration.FreshCountStep | src/spikes/2/Adrien.Compiler.PlaidML/Generator/TileGenerator.cs:118-120 | While the candidate is taken, the next one appends the next counter and is strictly longer |
| TileGeneration.FreshCountDone | src/spikes/2/Adrien.Compiler.PlaidML/Generator/TileGenerator.cs:118 | A free candidate ends the loop |
| TileGeneration.DimensionNames | src/spikes/2/Adrien.Compiler.PlaidML/Generator/TileGenerator.cs:111-124 | Naming fails only with a duplicate key, which is an input |
| TileGeneration.DimensionNamesOkIffDistinct | src/spikes/2/Adrien.Compiler.PlaidML/Generator/TileGenerator.cs:122 | Naming succeeds exactly when no input occurs twice |
| TileGeneration.DimensionNamesKeys | src/spikes/2/Adrien.Compiler.PlaidML/Generator/TileGenerator.cs:113-123 | On success the inputs, and nothing else, have dimension variables |
| TileGeneration.DimensionNamesForm | src/spikes/2/Adrien.Compiler.PlaidML/Generator/TileGenerator.cs:116-122 | Each dimension variable is its input's label, "N" and some counters, upper-cased |
| TileGeneration.DimensionNamesPrefixErr | src/spikes/2/Adrien.Compiler.PlaidML/Generator/TileGenerator.cs:114-123 | Once a prefix of the inputs fails, the naming fails the same way |
| TileGeneration.DimensionNamesStep | src/spikes/2/Adrien.Compiler.PlaidML/Generator/TileGenerator.cs:114-123 | One more unnamed input gets the first free candidate, upper-cased |
| TileGeneration.CaseCollision | src/spikes/2/Adrien.Compiler.PlaidML/Generator/TileGenerator.cs:118-122 | Labels "B" and "b" both get "BN": the test for used names runs before upper-casing |
| TileGeneration.SecondCounter | src/spikes/2/Adrien.Compiler.PlaidML/Generator/TileGenerator.cs:116-122 | A second input labelled "A" gets "AN1" |
| TileGeneration.ThirdCandidate | src/spikes/2/Adrien.Compiler.PlaidML/Generator/TileGenerator.cs:120 | Counters accumulate: the candidate after "AN1" is "AN12" |
| TileGeneration.CountersAccumulate | src/spikes/2/Adrien.Compiler.PlaidML/Generator/TileGenerator.cs:118-120 | A third input labelled "A" gets "AN12" |
| TileFunction.Parameters | src/spikes/2/Adrien.Compiler.PlaidML/Generator/TileGenerator.cs:129-135 | There are at most as many parameters as inputs |
| TileFunction.ParametersMembers | src/spikes/2/Adrien.Compiler.PlaidML/Generator/TileGenerator.cs:129-135 | A parameter is exactly the upper-cased label of an input that does not name an index set's parent |
| TileFunction.ParametersStep | src/spikes/2/Adrien.Compiler.PlaidML/Generator/TileGenerator.cs:129-135 | Each further input adds its upper-cased label, unless it names an index set's parent |
| TileFunction.ParameterListAppend | src/spikes/2/Adrien.Compiler.PlaidML/Generator/TileGenerator.cs:133 | Each parameter is appended with ", " |
| TileFunction.ParameterListJoin | src/spikes/2/Adrien.Compiler.PlaidML/Generator/TileGenerator.cs:133-136 | A nonempty appended list is the joined names and one trailing ", " |
| TileFunction.FunctionTextShape | src/spikes/2/Adrien.Compiler.PlaidML/Generator/TileGenerator.cs:126-144 | With a parameter, the text is "function(P1, P2, ...) -> " then the result part, " { ", the body and "}" |
| TileFunction.NoParameters | src/spikes/2/Adrien.Compiler.PlaidML/Generator/TileGenerator.cs:136 | With no parameter, the removal of two characters cuts into "function(", giving "functio) -> ..." |
| TileFunction.GenerateFull | src/spikes/2/Adrien.Compiler.PlaidML/Generator/TileGenerator.cs:24-30 | For a full tree, generation is the dimension naming followed by the reference rendering of the root |
| TileFunction.GenerateFullOk | src/spikes/2/Adrien.Compiler.PlaidML/Generator/TileGenerator.cs:24-30 | A full tree generates exactly when its inputs are distinct and it renders. Nothing is then queued, and the function text wraps the rendering. It never fails on the fragment count |
| TileGenerators.Body | src/spikes/2/Adrien.Compiler.PlaidML/Generator/TileGenerator.cs:143 | With one fragment on the context, the body is that fragment |
| TileGenerators.FirstFreeName | src/spikes/2/Adrien.Compiler.PlaidML/Generator/TileGenerator.cs:116-121 | The loop returns a name not yet taken, namely the first free candidate |
| TileGenerators.TileGenerator.Init | src/spikes/2/Adrien.Compiler.PlaidML/Generator/TileGenerator.cs:24-27 | The tree, the Tile writer, an empty context, queue and dimension map, and no success |
| TileGenerators.TileGenerator.Create | src/spikes/2/Adrien.Compiler.PlaidML/Generator/TileGenerator.cs:24-30 | Construction fails as the whole generation fails. Otherwise the generator holds that generation's dimension map, definitions, text and function text, and has succeeded |
| TileGenerators.TileGenerator.GetDimensionVariableNames | src/spikes/2/Adrien.Compiler.PlaidML/Generator/TileGenerator.cs:111-124 | The dictionary built by the loop is the specified naming, or the call fails as the naming does. Nothing else changes |
| TileGenerators.TileGenerator.VisitTree | src/spikes/2/Adrien.Compiler.PlaidML/Generator/TileGenerator.cs:29-37 | Visits the root as specified, then checks the context and writes the function text |
| TileGenerators.TileGenerator.AfterVisitTree | src/spikes/2/Adrien.Compiler.PlaidML/Generator/TileGenerator.cs:33-37 | Succeeds exactly with one fragment on the context, and only then sets success and writes the function text |
| TileGenerators.TileGenerator.WriteFunctionPrologue | src/spikes/2/Adrien.Compiler.PlaidML/Generator/TileGenerator.cs:126-144 | The text built by the loop is the specified function text. Nothing else changes |
| TileGenerators.TileGenerator.VisitLeaf | src/spikes/2/Adrien.Base/Generator/LanguageGenerator.cs:63-66 | Pushes the Tile writer's text for the leaf |
| TileGenerators.TileGenerator.Visit | src/spikes/2/Adrien.Compiler.PlaidML/Generator/TileGenerator.cs:39-108 | Leaves exactly the state of the tile visit, or fails as it does |
| TileGenerators.TileGenerator.VisitInternal | src/spikes/2/Adrien.Compiler.PlaidML/Generator/TileGenerator.cs:39-108 | Leaves exactly the state of the operator dispatch, or fails as it does |
| TileGenerators.TileGenerator.BaseVisitInternal | src/spikes/2/Adrien.Compiler.PlaidML/Generator/TileGenerator.cs:105-107 | Leaves exactly the state of the base visit, or fails as it does |
| TileGenerators.TileGenerator.VisitChildren | src/spikes/2/Adrien.Base/Generator/LanguageGenerator.cs:29 | Leaves exactly the state of visiting the left and then the right child |
| TileGenerators.TileGenerator.VisitOperands | src/spikes/2/Adrien.Compiler.PlaidML/Generator/TileGenerator.cs:65-71 | Returns the two popped texts and leaves the state the specification predicts |
| TileGenerators.TileGenerator.VisitElementWise | src/spikes/2/Adrien.Compiler.PlaidML/Generator/TileGenerator.cs:43-56 | Queues "lhs = rhs;" and pushes the template filled with lhs, as specified |
| TileGenerators.TileGenerator.VisitIndex | src/spikes/2/Adrien.Compiler.PlaidML/Generator/TileGenerator.cs:58-103 | Pushes the subscript with the indexed input's dimension variable, as specified, or fails as specified |

## Left out

- The tree visitor, the context classes, the language writer base class and the tree types are not part of this model. They are modelled from how the core uses them:
  - the children are visited left then right;
  - the context is a stack of fragments with a stack of open operator scopes;
  - a missing template fails;
  - placeholders "{k}" are replaced by the k-th operand. A "{k}" with no k-th operand is kept as text, where the host's String.Format throws. No template of the Tile writer reaches that case.
  - an index set of the tree is represented by its parent's label. A set without a parent, on which the host's Parent.Label throws (TileGenerator.cs:131, 138), cannot be expressed.
- The builders of expression trees from host expressions are not part of this model (TensorExpressionVisitor and its left-hand variant). `ToTree` only records which builder is used.
- The host expression graph is reduced to constants, parameters, operator nodes and calls. The traversal of the host expression library is taken as pre-order, with children in order.
- Notation object identity: an object is referenced by its name. Term.Id is taken to be Term.Name. The global registry of terms is an explicit map parameter. Term.GetName is a stand-in: the name base followed by the position.
- Tree value nodes are compared by value, that is by kind and label. The host's dictionary of dimension variables (TileGenerator.cs:20, 113, 122) uses the default comparer, which for a node class without its own equality compares references. So two distinct input leaves of the same kind and label are one key in the model:
  - TileGeneration.DimensionNames fails with DuplicateKey on them, where the host would name them "AN" and "AN1";
  - TileGeneration.DimensionNamesOkIffDistinct speaks of inputs distinct by value;
  - TileGeneration.SubscriptOfInput and the subscript text it states look up a tensor by value, so one of two such leaves cannot be told from the other.
- TensorExpressions.InputVariables: whether a tensor has a definition (Tensor.IsDefined) is the parameter `defined`, a set of tensors. It is not tied to each tensor's definition slot (Tensors.Tensor.ThrowIfAlreadyAssigned).
- Indexing.Negate and TensorExpressions.Negate give the negation node the operand's type. The host's Expression.Negate binds the user-defined unary minus of Index or TensorExpression, and the node then has that operator's result type. No contract depends on the node's type.
- ExpressionExtensions.DirectValues and ExpressionExtensions.ArrayFirsts have an InvalidCast branch, for a constant of type T whose value is not a notation object, or an array constant whose value is not an array. The host cannot build such a constant, and the model's expressions can. On the host a null value casts without failing, and null is not modelled.
- Casing covers ASCII letters only. The host's culture-dependent casing is not modelled.
- Expression types are compared by name. Reflection over the dummy operator methods is not modelled (Index.cs:105-125, TensorExpression.cs:119-163).
- The cast helper As, FlattenConstantExpressionArrayValue and GetIndexObjects are not modelled. Nor are the Sawmill traversal wrappers in ExpressionExtensions.cs.
- Tensors.Tensor: the element type T of the generic tensor is dropped. The generic tensor and the non-generic partial tensor are merged into one class with one definition slot. The arrays of Tensor.cs's getters therefore have element type Tensor. On the host, GetConstants of Tensor would not match their element type Tensor of T.
- Tensors.Tensor.OfRankWithIndices: FiveD to SevenD with index out-parameters are left out. They rely on deconstructions into five to seven indices, which IndexSet.cs does not declare.
- ContractionIndexers.Set: the null result of a failed cast of the value to a contraction is not modelled. A method-call value is stored as the contraction it is. The summation Math.SigmaSum is not part of this model and is a constructor of its own.
- TensorIndexers.Set: the contraction class is not part of this model. It is recorded by its value, its tensor and its index set.
- The index set constructor that records a tensor is not in IndexSet.cs. It is modelled as the constructor from indices that also records the tensor.
- SortedSet is modelled as successive insertion, in which the first index of an order wins. The host builds the set by sorting a copy of the indices with an unstable sort and dropping later equals, so for a repeated order it may keep a different index object. These hold either way: the set is sorted, holds only indices of the input, has the same orders, and has one index per distinct order (Indexing.SortedIndicesSpec). Which index object survives a repeated order is the model's choice. The contracts that fix the exact sequence depend on that choice:
  - Indexing.IndexSet.FromIndices, Indexing.IndexSet.ForTensor and Indexing.FromTuple (indices == SortedIndices(xs));
  - Indexing.EqualOrdersPair (the result is the first of the pair);
  - Tensors.Tensor.SetByIndices, TensorIndexers.Set and ContractionIndexers.Set (the stored set's indices).
- The index set's dimension constructor calls an Index constructor of three arguments. Index.cs declares four. The model passes axis length 0.
- In a tensor expression, these are not modelled: the name derived from its host expression, LHSIndexSet, TensorInputVariables, Strides, and the shape and dimension classes beyond length and stride.
- The binary operator class is not part of this model beyond its application.
- ContractionOperator, TileCompiler, Composer, Device, Function, GenericMath, CompilerApi, Options, IntPtrExtensions and the tests are not part of this model.
- Exceptions are modelled as error results. Environment.NewLine is "\n". No I/O is modelled.
- Two behaviours of the code are reproduced and stated as lemmas rather than corrected:
  - the prologue cuts into "function(" when there is no parameter (TileFunction.NoParameters);
  - labels that differ only in case share a dimension variable (TileGeneration.CaseCollision).
