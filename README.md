# Pure.DI code graph walker, implementation node builder and build tools

Pure.DI is a C# source generator for dependency injection. This project is a Dafny model of three parts of its code generator, with proofs about them.

- **Implementation dependency nodes.** `ImplementationDependencyNodeBuilder.Build` turns each binding of a setup into implementation dependency nodes:
  - It picks the accessible constructors of the implementation type.
  - It collects the ordinal methods and the injectable fields and properties.
  - It ranks the implementation variants and numbers them.
  - Attribute metadata (type, tag and ordinal attributes) is read through `GetAttribute`.
- **Code graph walker.** `CodeGraphWalker` walks a validated dependency graph from each composition root:
  - It allocates variables under the lifetime rules: arguments are shared, singleton and per-resolve variables are stored and then linked, and every other lifetime gets a new variable.
  - It keeps two stacks, one of block roots and one of targets, and builds one block of instantiations per block root.
  - It hands the blocks, last built first, to visit callbacks. The callbacks report constructors, required members and the post-construction members ordered by ordinal.
- **Build tools.** `BuildTools.OnCreated` produces the lines that run after an instance is created:
  - The registration of the instance in the accumulators whose lifetime and type match.
  - Each accumulator name is used once, in name order.
  - These lines sit inside lock statements when locking is required, and after a call to `OnNewInstance` when that hint is on and its filter passes.
  - `GetTag` and `GetDeclaration` are modelled as well.

Layout:

- `models.dfy` (`Models`): the shared records.
  - Lifetimes, tags, injections and the `Dp*` implementation records.
  - `DependencyNode`.
  - The `Variable` class, whose `created` flag the walker updates in place.
- `sorting.dfy` (`Sorting`): `OrderBy`/`ThenBy`.
  - A stable sort on a two-part key, proved sorted, a permutation and stable.
  - The ordinal string order.
- `graph.dfy` (`Graphs`): the dependency graph.
  - Instantiations and blocks.
  - The out-edge weight test that promotes a per-resolve dependency to a block root.
  - The stacks, and the termination measure of the walk.
- `visits.dfy` (`Visits`): the visit callbacks as a sequence of events, and the member order of `VisitImplementation`.
- `walker.dfy` (`Walker`): class `CodeGraphWalker`. Its fields are the variable map, the identifier counter and the event trace.
- `node_builder.dfy` (`NodeBuilder`): `Build`, `GetAttribute`, `GetParameters`, `GetInjectionsCount` and `CreateNodes`.
- `build_tools.dfy` (`BuildTools`): `FilterAccumulator`, the accumulator selection, `OnCreated` over a `LinesBuilder` class, `GetTag` and `GetDeclaration`.

Most loops of the source are Dafny methods. Each method's `ensures` ties its result, or its new state, to a specification function. The lemmas then prove what the source promises about those functions. Three sets of loops are modelled by functions instead:
- the required-field loop of `VisitImplementation` (CodeGraphWalker.cs:207) is the function `Visits.RequiredFieldsOf`;
- the required-property loop (CodeGraphWalker.cs:214) is the function `Visits.RequiredPropertiesOf`;
- the `foreach`/`yield` loops of `CreateNodes` (ImplementationDependencyNodeBuilder.cs:144 and :164) are the function `NodeBuilder.CreateNodes`, composed in `BindingNodes`.

## Model

| member | source | states |
|---|---|---|
| Walker.CodeGraphWalker.GenerateId | src/Pure.DI.Core/Core/CodeGraphWalker.cs:410 | hands out the current identifier and advances the counter by one |
| Walker.CodeGraphWalker.CreateVariable | src/Pure.DI.Core/Core/CodeGraphWalker.cs:355-408 | an argument variable is created once per binding, declared and created, and reused afterwards; a singleton is stored on first use as a declared block root and linked to that storage later; a per-resolve variable is stored with a fresh identifier and linked later; any other lifetime gets a fresh variable with a fresh identifier that is not stored; stored entries are never replaced |
| Walker.CodeGraphWalker.ProcessVariable | src/Pure.DI.Core/Core/CodeGraphWalker.cs:79-109 | a block root, or a per-resolve dependency whose out-edges weigh more than 1, goes on the block-root stack; any other dependency goes on the target stack unless the target is a factory; every dependency is appended to the arguments; under a lazy enumerable the dependency is marked created exactly when it is not per resolve |
| Walker.CodeGraphWalker.AddArgument | src/Pure.DI.Core/Core/CodeGraphWalker.cs:70-74 | creates the variable for one in-edge and processes it: the argument is a variable of the edge's source node, appended to the arguments, and pushed on the stack that ProcessVariable chooses; under a lazy enumerable its storage becomes created exactly when it is not per resolve, and every other storage keeps its created flag |
| Walker.CodeGraphWalker.InstantiateTarget | src/Pure.DI.Core/Core/CodeGraphWalker.cs:64-77 | the instantiation has one argument per in-edge, in edge order; the block-root stack receives exactly the promoted arguments and the target stack exactly the inline ones (none under a factory), in order; the remaining work strictly decreases; the created flags change only for the arguments of a lazy enumerable |
| Walker.CodeGraphWalker.BuildBlock | src/Pure.DI.Core/Core/CodeGraphWalker.cs:62-112 | the block of a popped block root ends with the root's own instantiation, matches the graph, instantiates every inline dependency before it is used, and sends every promoted dependency to the block-root stack; the created flags change only for the dependencies of lazy enumerables in the block |
| Walker.CodeGraphWalker.BuildBlocks | src/Pure.DI.Core/Core/CodeGraphWalker.cs:55-113 | the walk ends, builds at least one block, the last block built is the root variable's, every block is well built, in visiting order every promoted dependency is the root of an earlier block, and each target ends created exactly as its flag rule says: a dependency of a lazy enumerable unless per resolve, an older storage as it was, a new one exactly when it is an argument |
| Walker.CodeGraphWalker.VisitRootVariable | src/Pure.DI.Core/Core/CodeGraphWalker.cs:48-119 | the blocks are built as BuildBlocks states and then visited last-built first: the trace grows by exactly the events of the visited blocks in order, and which targets are skipped as already created is fixed by the flags the storages had before the walk and the lazy-enumerable rule |
| Walker.CodeGraphWalker.VisitBlocks | src/Pure.DI.Core/Core/CodeGraphWalker.cs:115-118 | the trace grows by the events of each block in turn |
| Walker.CodeGraphWalker.VisitBlock | src/Pure.DI.Core/Core/CodeGraphWalker.cs:121-132 | the trace grows by the events of each instantiation of the block in order |
| Walker.CodeGraphWalker.VisitInstantiation | src/Pure.DI.Core/Core/CodeGraphWalker.cs:134-187 | the callback is chosen with the fixed priority implementation, factory, argument, construct kind, and the trace grows by that callback's events only |
| Walker.CodeGraphWalker.VisitImplementation | src/Pure.DI.Core/Core/CodeGraphWalker.cs:189-259 | nothing is reported for a target that is already created; otherwise the constructor with the required fields and properties, then the post-construction members sorted by ordinal |
| Walker.CodeGraphWalker.RunVisits | src/Pure.DI.Core/Core/CodeGraphWalker.cs:254-258 | the sorted visit actions are run in order, one member event each |
| Walker.CodeGraphWalker.CollectVisits | src/Pure.DI.Core/Core/CodeGraphWalker.cs:229-252 | collects the optional fields, then the optional properties, then the methods, each in declaration order |
| Walker.CodeGraphWalker.VisitRoot | src/Pure.DI.Core/Core/CodeGraphWalker.cs:22-46 | walks the root and visits its blocks, with the created targets fixed by the flags before the walk; afterwards only the singleton and argument variables remain, each marked not created, and the walk never replaces a variable stored before it |
| Walker.CodeGraphWalker.CreateRootVariable | src/Pure.DI.Core/Core/CodeGraphWalker.cs:29 | creates the root variable under the lifetime rules without replacing any stored variable; the storages that existed keep their created flags, and a new storage holds the flag its node gives it |
| Walker.CodeGraphWalker.WalkRoot | src/Pure.DI.Core/Core/CodeGraphWalker.cs:29-30 | creates the root variable under the lifetime rules and walks from it; the trace and the created targets are as VisitRootVariable states, relative to the flags the storages had before |
| Walker.CodeGraphWalker.ForgetPerRootVariables | src/Pure.DI.Core/Core/CodeGraphWalker.cs:32-40 | removes exactly the variables that are neither singletons nor arguments and keeps the others unchanged |
| Walker.CodeGraphWalker.ResetCreated | src/Pure.DI.Core/Core/CodeGraphWalker.cs:42-45 | every remaining variable is marked not created |
| Walker.CodeGraphWalker.VisitGraph | src/Pure.DI.Core/Core/CodeGraphWalker.cs:9-20 | walks the roots in order: the trace is the events of each root's blocks in turn; every root's blocks end with that root's own block, are well built and put block roots first; the first root starts from the flags as they were and every later one from storages that are not created; between roots only the singleton and argument variables are kept, all marked not created |
| Graphs.SharedIffHeavy | src/Pure.DI.Core/Core/CodeGraphWalker.cs:84-87 | the out-edge weight exceeds 1 exactly when the node has two or more consumers, or one consumer that is a factory |
| Graphs.ConsumerIffDependency | src/Pure.DI.Core/Core/CodeGraphWalker.cs:84-87 | a node lists t among its out-edges exactly when t has an in-edge from it, so the out-edge weight counts the consumers the walk sees |
| Graphs.WeightOfBounds | src/Pure.DI.Core/Core/CodeGraphWalker.cs:86 | the weight of n consumers lies between n and 2n |
| Graphs.PartitionMembers | src/Pure.DI.Core/Core/CodeGraphWalker.cs:90-100 | a dependency goes to the block-root stack exactly when it is promoted, and to the targets exactly when it is not |
| Graphs.PartitionSizes | src/Pure.DI.Core/Core/CodeGraphWalker.cs:90-100 | every dependency goes to exactly one of the two stacks |
| Graphs.PushAllElements | src/Pure.DI.Core/Core/CodeGraphWalker.cs:92 | pushing a sequence onto a stack adds exactly its elements |
| Visits.Dispatch | src/Pure.DI.Core/Core/CodeGraphWalker.cs:141-186 | in both directions: the implementation callback exactly when there is an implementation, else the factory callback exactly when there is a factory, else the argument callback, else the construct callback |
| Visits.FieldVisits | src/Pure.DI.Core/Core/CodeGraphWalker.cs:207-236 | a field is visited in the requested group exactly when its required flag matches |
| Visits.PropertyVisits | src/Pure.DI.Core/Core/CodeGraphWalker.cs:214-244 | a property is set at construction exactly when it is required or init-only |
| Visits.RequiredFieldsAtConstruction | src/Pure.DI.Core/Core/CodeGraphWalker.cs:205-211 | the constructor receives exactly the required fields, ordered by ordinal, with a missing ordinal counting as int.MaxValue - 1 |
| Visits.RequiredPropertiesAtConstruction | src/Pure.DI.Core/Core/CodeGraphWalker.cs:212-218 | the constructor receives exactly the required or init-only properties, ordered by ordinal, with a missing ordinal counting as int.MaxValue |
| Visits.VisitedAfterConstruction | src/Pure.DI.Core/Core/CodeGraphWalker.cs:228-252 | a member is visited after construction exactly when it is an optional field, an optional property or a method |
| Visits.MembersRunInOrdinalOrder | src/Pure.DI.Core/Core/CodeGraphWalker.cs:254 | the post-construction members run in ascending ordinal order, and members without an ordinal run last |
| Visits.TiesKeepDeclarationOrder | src/Pure.DI.Core/Core/CodeGraphWalker.cs:226-254 | members with equal ordinals keep the order fields, properties, methods, each in declaration order |
| Sorting.StableSortBy | src/Pure.DI.Core/Core/CodeGraphWalker.cs:254 | the result is sorted by key and is a permutation of the input |
| Sorting.StableSortKeepsOrder | src/Pure.DI.Core/Core/CodeGraphWalker.cs:254 | elements with equal keys keep their input order (OrderBy is stable) |
| Sorting.StringLeTotal | src/Pure.DI.Core/Core/Code/BuildTools.cs:104 | the name order is total |
| Sorting.StringLeTransitive | src/Pure.DI.Core/Core/Code/BuildTools.cs:104 | the name order is transitive |
| Sorting.StringLeAntisymmetric | src/Pure.DI.Core/Core/Code/BuildTools.cs:104 | the name order is antisymmetric |
| NodeBuilder.AttributesOf | src/Pure.DI.Core/Core/ImplementationDependencyNodeBuilder.cs:211 | the attributes of the requested class are exactly the symbol's attributes of that class |
| NodeBuilder.AttributeLookup | src/Pure.DI.Core/Core/ImplementationDependencyNodeBuilder.cs:202-234 | a value found has the requested type (a null value matches no type) |
| NodeBuilder.LookupSkipsPassedOver | src/Pure.DI.Core/Core/ImplementationDependencyNodeBuilder.cs:209-231 | metadata entries with no attribute, or whose single attribute has no value of the type at the position, do not decide the lookup |
| NodeBuilder.LookupDefault | src/Pure.DI.Core/Core/ImplementationDependencyNodeBuilder.cs:233 | the default is returned exactly when every metadata entry is passed over |
| NodeBuilder.LookupFirstMatch | src/Pure.DI.Core/Core/ImplementationDependencyNodeBuilder.cs:220-224 | the first entry whose single attribute has a value of the type at the position gives that value |
| NodeBuilder.LookupMultiple | src/Pure.DI.Core/Core/ImplementationDependencyNodeBuilder.cs:228-229 | two attributes of one class on the member are a compile error for that attribute |
| NodeBuilder.LookupOutOfRange | src/Pure.DI.Core/Core/ImplementationDependencyNodeBuilder.cs:215-220 | as intended: a single attribute whose argument position is outside its arguments is reported as invalid metadata, with the position and the argument count, and no argument is read |
| NodeBuilder.AttributeLookupAsWritten | src/Pure.DI.Core/Core/ImplementationDependencyNodeBuilder.cs:213-224 | as written: a position out of range throws, and a diagnostic is logged only when the position exceeds the argument count |
| NodeBuilder.PositionAtLengthIsUnreported | src/Pure.DI.Core/Core/ImplementationDependencyNodeBuilder.cs:215-220 | a position equal to the argument count throws with no diagnostic, where the corrected lookup reports it |
| NodeBuilder.AsWrittenAgreesOffTheBoundary | src/Pure.DI.Core/Core/ImplementationDependencyNodeBuilder.cs:202-234 | when no position equals the argument count, the written lookup and the corrected lookup give the same outcome |
| NodeBuilder.GetAttribute | src/Pure.DI.Core/Core/ImplementationDependencyNodeBuilder.cs:202-234 | the loop over the metadata returns the corrected lookup's result |
| NodeBuilder.Ordinal | src/Pure.DI.Core/Core/ImplementationDependencyNodeBuilder.cs:75-76 | the ordinal lookup fails exactly when the attribute lookup fails, with its error; it has a value exactly when an int was found, and that value is the int found |
| NodeBuilder.InjectionOf | src/Pure.DI.Core/Core/ImplementationDependencyNodeBuilder.cs:95-97 | a type attribute found is the contract as it is, otherwise the declared type goes through the type constructor; a tag attribute found is the tag, otherwise the injection is untagged; the type lookup's failure wins over the tag lookup's |
| NodeBuilder.GetInjection | src/Pure.DI.Core/Core/ImplementationDependencyNodeBuilder.cs:95-97 | computes InjectionOf, looking up the type attribute before the tag attribute |
| NodeBuilder.GetOrdinal | src/Pure.DI.Core/Core/ImplementationDependencyNodeBuilder.cs:75 | computes Ordinal |
| NodeBuilder.Parameters | src/Pure.DI.Core/Core/ImplementationDependencyNodeBuilder.cs:181-200 | on success one injection per parameter, in order, each the parameter's InjectionOf; otherwise the error of the first parameter whose injection fails |
| NodeBuilder.GetParameters | src/Pure.DI.Core/Core/ImplementationDependencyNodeBuilder.cs:181-200 | the loop over the parameters returns Parameters |
| NodeBuilder.ConstructorEntry | src/Pure.DI.Core/Core/ImplementationDependencyNodeBuilder.cs:43-52 | an internal, friend or public constructor is a candidate with its own accessibility; any other is skipped before any attribute is read |
| NodeBuilder.Constructors | src/Pure.DI.Core/Core/ImplementationDependencyNodeBuilder.cs:40-53 | on success the candidates are the entries of the accessible constructors in declaration order, as many as there are accessible constructors; otherwise the error of the first constructor whose lookups fail |
| NodeBuilder.CollectConstructors | src/Pure.DI.Core/Core/ImplementationDependencyNodeBuilder.cs:40-53 | the constructor loop returns Constructors |
| NodeBuilder.MemberEntry | src/Pure.DI.Core/Core/ImplementationDependencyNodeBuilder.cs:63-121 | static, inaccessible and other members are skipped; a method is kept only when it is ordinary and has an ordinal; a field only when it is writable, not const, and required or with an ordinal; a property only when it is writable, not an indexer, and required or with an ordinal; conversely each member that passes these tests is kept unless a lookup fails; a kept entry carries the ordinal and the injections the lookups give |
| NodeBuilder.MembersFromEntries | src/Pure.DI.Core/Core/ImplementationDependencyNodeBuilder.cs:60-122 | each of the three lists holds exactly what the members contribute of its kind |
| NodeBuilder.MembersSucceed | src/Pure.DI.Core/Core/ImplementationDependencyNodeBuilder.cs:60-122 | the member lists succeed exactly when every member's entry does |
| NodeBuilder.MembersInDeclarationOrder | src/Pure.DI.Core/Core/ImplementationDependencyNodeBuilder.cs:60-122 | the member lists succeed exactly when every member's entry does; each list is then the entries of its kind in declaration order, one per member that contributes one |
| NodeBuilder.CollectMembers | src/Pure.DI.Core/Core/ImplementationDependencyNodeBuilder.cs:60-122 | the member loop returns Members |
| NodeBuilder.CollectMember | src/Pure.DI.Core/Core/ImplementationDependencyNodeBuilder.cs:70-121 | the body of the member loop returns MemberEntry |
| NodeBuilder.CountInjections | src/Pure.DI.Core/Core/ImplementationDependencyNodeBuilder.cs:174-179 | as DependenciesToInjectionsCountWalker does, walks the constructor parameters, each method's parameters, the fields and the properties, one increment per injection visited; the count is the number of injections of the implementation |
| NodeBuilder.WithOrdinal | src/Pure.DI.Core/Core/ImplementationDependencyNodeBuilder.cs:135 | keeps exactly the implementations whose constructor has an ordinal |
| NodeBuilder.MaxCount | src/Pure.DI.Core/Core/ImplementationDependencyNodeBuilder.cs:157 | the maximum injection count is attained and bounds every count |
| NodeBuilder.OrdinalOrder | src/Pure.DI.Core/Core/ImplementationDependencyNodeBuilder.cs:135-139 | with ordinals only the ordinal constructors take part, in ascending ordinal order |
| NodeBuilder.VariantGroupsByCount | src/Pure.DI.Core/Core/ImplementationDependencyNodeBuilder.cs:140-142 | each constructor's variants are a permutation of the built variants, in descending order of injection count |
| NodeBuilder.CountRanking | src/Pure.DI.Core/Core/ImplementationDependencyNodeBuilder.cs:152-162 | without ordinals all variants take part, in descending injection count, ties by descending declared accessibility |
| NodeBuilder.CountRankingMaxFirst | src/Pure.DI.Core/Core/ImplementationDependencyNodeBuilder.cs:157-162 | without ordinals the first variant has the most injections |
| NodeBuilder.CreateNodes | src/Pure.DI.Core/Core/ImplementationDependencyNodeBuilder.cs:171-172 | one node per variant, in order, numbered 0, 1, 2, ..., carrying its implementation |
| NodeBuilder.BaseImplementations | src/Pure.DI.Core/Core/ImplementationDependencyNodeBuilder.cs:124-133 | one base implementation per constructor, each sharing the method, property and field lists |
| NodeBuilder.BindingNodes | src/Pure.DI.Core/Core/ImplementationDependencyNodeBuilder.cs:22-168 | a binding without an implementation is skipped; a type that is not a named type ends the enumeration; an abstract type, or one without accessible constructors, is a compile error; emitted nodes are numbered from 0 and carry the binding |
| NodeBuilder.BuildBinding | src/Pure.DI.Core/Core/ImplementationDependencyNodeBuilder.cs:24-167 | the body of the binding loop returns BindingNodes |
| NodeBuilder.BuildAppend | src/Pure.DI.Core/Core/ImplementationDependencyNodeBuilder.cs:22-168 | the enumeration over two runs of bindings is that over the first, followed by that over the second when the first ran through |
| NodeBuilder.StopsAtUnnamedType | src/Pure.DI.Core/Core/ImplementationDependencyNodeBuilder.cs:29-32 | after a binding whose type is not a named type nothing more is yielded |
| NodeBuilder.SkipsBindingsWithoutImplementation | src/Pure.DI.Core/Core/ImplementationDependencyNodeBuilder.cs:24-27 | a binding without an implementation neither yields nor ends the enumeration |
| NodeBuilder.Build | src/Pure.DI.Core/Core/ImplementationDependencyNodeBuilder.cs:20-169 | the loop over the bindings returns BuildFrom of the bindings |
| BuildTools.FilterAccumulator | src/Pure.DI.Core/Core/Code/BuildTools.cs:148-161 | an accumulator passes exactly when it has the instance's lifetime and is a root accumulator or the lifetime is transient or per block |
| BuildTools.EligibleOf | src/Pure.DI.Core/Core/Code/BuildTools.cs:99-101 | keeps exactly the accumulators that pass the filter and whose type is a base type of the instance |
| BuildTools.EligibleOfKeepsOrder | src/Pure.DI.Core/Core/Code/BuildTools.cs:99-101 | two eligible accumulators keep their declaration order in the filtered sequence |
| BuildTools.EligibleNames | src/Pure.DI.Core/Core/Code/BuildTools.cs:99-101 | a name occurs among the eligible accumulators exactly when some eligible accumulator has it |
| BuildTools.FirstOfEachNameMembers | src/Pure.DI.Core/Core/Code/BuildTools.cs:102-103 | the grouping keeps exactly the first accumulator of each name |
| BuildTools.FirstOfEachNameDistinct | src/Pure.DI.Core/Core/Code/BuildTools.cs:102-103 | no two kept accumulators share a name |
| BuildTools.FirstOfEligible | src/Pure.DI.Core/Core/Code/BuildTools.cs:99-103 | the first of each name among the eligible accumulators is exactly an eligible accumulator with no eligible accumulator of its name declared before it |
| BuildTools.SortByNameDistinct | src/Pure.DI.Core/Core/Code/BuildTools.cs:104 | sorting keeps the accumulators and orders distinct names strictly ascending |
| BuildTools.SelectionSpec | src/Pure.DI.Core/Core/Code/BuildTools.cs:99-106 | the selection holds exactly the eligible accumulators that no earlier eligible accumulator shares a name with, every eligible name, and names strictly ascending |
| BuildTools.LinesBuilder.AppendLines | src/Pure.DI.Core/Core/Code/BuildTools.cs:115 | appends the lines shifted by the current indent, indent unchanged |
| BuildTools.AppendWrapped | src/Pure.DI.Core/Core/Code/BuildTools.cs:108-122 | appends the accumulator lines, inside the lock statements and braces and one level in when locked |
| BuildTools.OnCreatedLines | src/Pure.DI.Core/Core/Code/BuildTools.cs:88-91 | nothing is produced for an argument variable |
| BuildTools.PrefixedPositions | src/Pure.DI.Core/Core/Code/BuildTools.cs:108-145 | the exact layout: the OnNewInstance call first when made; when locked, the lock statement and opening brace, the accumulator lines one level in, then the closing brace and the unlock statement |
| BuildTools.PrefixedTexts | src/Pure.DI.Core/Core/Code/BuildTools.cs:108-145 | lock and unlock statements occur exactly when locked, the OnNewInstance call exactly when made and only first, and the additions are exactly the accumulator lines' additions |
| BuildTools.OnCreatedShape | src/Pure.DI.Core/Core/Code/BuildTools.cs:86-146 | locking happens exactly when it is required and some accumulator is selected; the OnNewInstance call comes first exactly when the hint is on and the filter passes; the exact line count and layout |
| BuildTools.AccumulatorLinesNames | src/Pure.DI.Core/Core/Code/BuildTools.cs:105 | an addition line exists for a name exactly when a selected accumulator has that name |
| BuildTools.OnCreatedAddsEligible | src/Pure.DI.Core/Core/Code/BuildTools.cs:86-146 | the created instance is added to an accumulator name exactly when some eligible accumulator has that name |
| BuildTools.OnCreated | src/Pure.DI.Core/Core/Code/BuildTools.cs:86-146 | building the lines step by step in a LinesBuilder gives OnCreatedLines |
| BuildTools.GetTag | src/Pure.DI.Core/Core/Code/BuildTools.cs:163-172 | the context tag is replaced by the build context's tag; any other tag is kept |
| BuildTools.GetDeclaration | src/Pure.DI.Core/Core/Code/BuildTools.cs:23-24 | empty for a declared variable, otherwise the type name and the separator (a single space by default); for a nonempty prefix it is empty exactly when the variable is declared |

## Left out

- Cancellation: each `ThrowIfCancellationRequested` only aborts the walk, so it is not modelled.
- The variables handed to each callback (the constructor, field, property and method arguments matched by DependenciesToVariablesWalker, CodeGraphWalker.cs:201-250) are not recorded in the events. DependenciesToVariablesWalker is not part of this model.
- The walker's visit hooks (VisitConstructor, VisitField, VisitFactory and the others, CodeGraphWalker.cs:261-353) are empty virtual methods. Each call is recorded as an event in the walker's trace. What derived walkers do in those hooks is not part of this model.
- The `VisitRoot`, `VisitBlock` and `VisitInstantiation` overrides of derived walkers are not modelled. The walker's own behaviour is modelled.
- GenerateId: the identifier generator is modelled as a counter on the walker. Only freshness and the order of hand-out matter.
- The walk keeps no visited set. The model therefore takes a ghost rank that drops along every edge the walk follows:
  - the in-edges of a target that is not a factory;
  - the in-edges of a factory whose source is promoted to a block root.
- A cycle through a factory into a dependency that is not promoted is admitted, for example A, then `Func<B>`, then a transient B, then A again.
- Graphs on which the walk would not end are excluded, for example a cycle through a factory back into a singleton. Linked variables are modelled as reporting their storage's block-root flag; Variable.cs is not part of this model, so whether the source loops on such graphs is not established.
- The graph is assumed to have one node per binding, the key of the variable map.
- Singleton and per-resolve variables that are linked to a stored variable are new `Variable` objects referring to the storage. Variable.cs is not part of this model.
- Scoped and per-block lifetimes get a new variable on every use, as the code does. The weight-based promotion to a block root applies to per-resolve dependencies only, also as the code does.
- EligibleOf: its contract gives which accumulators are kept; the order they keep is stated separately by BuildTools.EligibleOfKeepsOrder.
- NodeBuilder.InjectionsOf: DependenciesWalker is not part of this model. The injections it visits are taken to be the constructor parameters, the method parameters, the fields and the properties.
- Roslyn symbols (types, constructors, members, attributes) are abstract records of the properties the builder reads.
- The implementation variants builder is a function parameter of `Build`.
- The type constructor is a function on type identifiers; an absent one is the identity. Nullable annotations are not modelled.
- `OrderBy(Name)` (BuildTools.cs:104) sorts accumulator names with the culture's string comparison in .NET. The model sorts them by ordinal code-unit order. `GroupBy(Name)` (BuildTools.cs:102) compares names by ordinal equality, as the model does. The culture comparison can rank two distinct names as equal, and the stable sort then keeps them in first-occurrence order. The model does not capture this.
- LinesBuilder.cs is not part of this model. `LinesBuilder` is assumed to record each line at the current indent plus the line's own indent, and to keep the indent at zero or above.
- `ILocks`, `ITypeResolver`, `IBaseSymbolsProvider` and `IFilter` are oracles:
  - The lock and unlock statements are single lines.
  - The resolved type name is a parameter of GetDeclaration.
  - The base types are a set parameter.
  - The answer of the OnNewInstance regular-expression filter is a boolean parameter.
- The text of the generated lines (accumulator `Add` calls, the `OnNewInstance` call with its type, tag and lifetime arguments) is modelled by line kind and accumulator name only.
- `AddPureHeader` and `OnInjected` are not modelled.
- `Max` over an empty sequence of variants (ImplementationDependencyNodeBuilder.cs:157) throws in .NET. The model reports it as the `NoVariants` error.
- NodeBuilder.AttributeLookup: the rest of the model uses the corrected lookup (see Findings). The behaviour as written is modelled separately by NodeBuilder.AttributeLookupAsWritten.
- Exception messages and locations are not modelled; errors carry only their kind and the binding or attribute concerned.

## Findings

| source | as written | input that shows it | evidently intended | confidence | as-written member | corrected member |
|---|---|---|---|---|---|---|
| src/Pure.DI.Core/Core/ImplementationDependencyNodeBuilder.cs:215-220 | the guard `ArgumentPosition > args.Length` logs the error only for positions past the end. `args[ArgumentPosition]` is then read anyway, so a position equal to the argument count (or negative) throws an index exception with no metadata diagnostic | an attribute with one constructor argument, with metadata naming argument position 1 | positions outside `0 .. args.Length - 1` are reported as invalid metadata, and no argument is read | not executed | NodeBuilder.PositionAtLengthIsUnreported | NodeBuilder.LookupOutOfRange |
