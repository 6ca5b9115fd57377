# Override mapping of the Mono linker (`TypeMapStep`)

This project is a Dafny model of the linker step that maps virtual methods to
the methods they override. For every virtual method of every type of an
assembly, the step does three things:

- it looks up the base-class chain for the nearest method in the same
  dispatch slot;
- it looks depth-first through the declaring type's interfaces for the first
  method in that slot;
- it takes every explicit override reference that resolves.

Each relationship is recorded in two indexes: "base methods of" and
"overrides of".

Modules, in dependency order:

- `Options`: the optional value returned by lookups.
- `TypeRefs`: type references (named types, generic parameters, generic
  instances, modified types, other type specifications) and the structural
  type matcher `TypeMatch`, with its four overloads folded into one
  recursion.
- `TypeGraph`: the loaded type definitions as a map. A reference resolves
  when its identity is a key. Methods are identified by declaring type and
  position. `Acyclic` says that some rank map puts every resolvable base type
  and interface strictly below the type that names it.
- `MethodMatching`: the slot match `MethodMatch` and the first-match scan
  `TryMatchMethod`.
- `Hierarchy`: the base-type step, the class-chain search and the interface
  search. Each search is specified as the first hit along a separately
  defined order of types. For the class chain that order is the ancestor
  chain; for the interfaces it is their pre-order.
- `Annotations`: the relationship store (two maps of sets) and
  `AnnotateMethods`.
- `TypeMapStep`: the pass. Each step function states which edges it adds
  (`Edges(r) == Edges(s) + ...`), that it keeps the two indexes inverse, and
  that it leaves a store already holding those edges unchanged.
- `PassProperties`: theorems about the whole pass:
  - edges recorded per method;
  - why each recorded edge is justified;
  - explicit overrides are taken unconditionally;
  - idempotence;
  - order independence.
- `Scenarios`: small concrete hierarchies worked out by hand.

## Model

| member | source | states |
|---|---|---|
| TypeRefs.WildcardOnLeft | mcs/tools/linker/Mono.Linker.Steps/TypeMapStep.cs:217-220 | a generic parameter on the left matches every type |
| TypeRefs.WildcardIsOneSided | mcs/tools/linker/Mono.Linker.Steps/TypeMapStep.cs:217-229 | a generic parameter on the right is no wildcard: a non-parameter matches it exactly when it is the named type with the parameter's name |
| TypeRefs.SpecKindsMustAgree | mcs/tools/linker/Mono.Linker.Steps/TypeMapStep.cs:222-224 | when the left side is not a generic parameter, either side is a type specification and the two are of different classes, they do not match |
| TypeRefs.GenericInstanceRule | mcs/tools/linker/Mono.Linker.Steps/TypeMapStep.cs:199-215 | two generic instances match exactly when their elements match, their argument counts agree and the arguments match position by position |
| TypeRefs.ArgsMatch | mcs/tools/linker/Mono.Linker.Steps/TypeMapStep.cs:210-214 | the argument loop from position i succeeds exactly when every later argument pair matches |
| TypeRefs.ModifiedRule | mcs/tools/linker/Mono.Linker.Steps/TypeMapStep.cs:180-186 | two modified types match exactly when both are optional or both required, their modifier types match and their element types match |
| TypeRefs.OtherRule | mcs/tools/linker/Mono.Linker.Steps/TypeMapStep.cs:188-197 | two other type specifications match exactly when they are of the same kind and their element types match |
| TypeRefs.NamedRule | mcs/tools/linker/Mono.Linker.Steps/TypeMapStep.cs:229 | two named types match exactly when their full names are equal |
| TypeRefs.TypeMatchReflexive | mcs/tools/linker/Mono.Linker.Steps/TypeMapStep.cs:180-230 | every type reference matches itself |
| TypeRefs.MatchesEveryInstantiation | mcs/tools/linker/Mono.Linker.Steps/TypeMapStep.cs:217-220 | a type matches every substitution of its generic parameters |
| TypeRefs.ClosedMatchIsErasedEquality | mcs/tools/linker/Mono.Linker.Steps/TypeMapStep.cs:180-230 | when the left side has no generic parameter, matching is equality after parameters on the right are replaced by their names and ignored specification details are dropped |
| TypeRefs.ClosedMatchSymmetric | mcs/tools/linker/Mono.Linker.Steps/TypeMapStep.cs:217-230 | between references without generic parameters, matching is symmetric |
| TypeRefs.ClosedMatchTransitive | mcs/tools/linker/Mono.Linker.Steps/TypeMapStep.cs:217-230 | matching chains through a middle type when the first two have no generic parameter |
| MethodMatching.MethodMatch | mcs/tools/linker/Mono.Linker.Steps/TypeMapStep.cs:159-178 | the early-return checks amount to: candidate virtual, names equal, return types match, parameter counts equal and every parameter pair matches in order |
| MethodMatching.ParamsMatchFrom | mcs/tools/linker/Mono.Linker.Steps/TypeMapStep.cs:173-177 | the parameter loop from position i succeeds exactly when every later parameter pair matches |
| MethodMatching.NonVirtualNeverMatches | mcs/tools/linker/Mono.Linker.Steps/TypeMapStep.cs:161-162 | a non-virtual candidate never occupies a slot |
| MethodMatching.MatchesInstantiatedSignature | mcs/tools/linker/Mono.Linker.Steps/TypeMapStep.cs:159-178 | a virtual method matches every method of the same name whose signature is a substitution of its own |
| MethodMatching.TryMatchMethod | mcs/tools/linker/Mono.Linker.Steps/TypeMapStep.cs:147-157 | the result is the first matching method in declaration order; there is none exactly when no method matches |
| MethodMatching.FirstMatchFrom | mcs/tools/linker/Mono.Linker.Steps/TypeMapStep.cs:152-156 | the scan from position i returns the first matching position at or after i, and none exactly when no later method matches |
| Hierarchy.GetBaseType | mcs/tools/linker/Mono.Linker.Steps/TypeMapStep.cs:232-238 | the base is absent when the type names none or the name does not resolve; a resolved base ranks strictly lower |
| Hierarchy.FirstHit | mcs/tools/linker/Mono.Linker.Steps/TypeMapStep.cs:109-115 | the first type along an order that has a matching method, and that method; none exactly when no type along it has one |
| Hierarchy.FirstHitAppend | mcs/tools/linker/Mono.Linker.Steps/TypeMapStep.cs:130-142 | along a concatenation, a hit in the first part wins over any in the second |
| Hierarchy.AncestorsFrom | mcs/tools/linker/Mono.Linker.Steps/TypeMapStep.cs:108-115 | the chain starts at the given type, each next entry is the previous one's resolved base, and it ends at a type with no resolved base |
| Hierarchy.Ancestors | mcs/tools/linker/Mono.Linker.Steps/TypeMapStep.cs:106-118 | the chain starts at the base of the type, never includes the type itself, and stops at the first absent or unresolved base |
| Hierarchy.BaseMethodFrom | mcs/tools/linker/Mono.Linker.Steps/TypeMapStep.cs:109-117 | the loop from a type is the first hit along the chain starting there |
| Hierarchy.BaseMethodInTypeHierarchy | mcs/tools/linker/Mono.Linker.Steps/TypeMapStep.cs:106-118 | the class-chain search is the first hit along the ancestors |
| Hierarchy.ClassChainSearchIsNearest | mcs/tools/linker/Mono.Linker.Steps/TypeMapStep.cs:106-118 | the result is the first matching method of the nearest ancestor with one; it never belongs to the type itself; there is none exactly when no ancestor has a match |
| Hierarchy.PreOrder | mcs/tools/linker/Mono.Linker.Steps/TypeMapStep.cs:125-145 | every entry of the reference order for the interface search is a loaded type; the order itself, the depth-first pre-order of the interface forest with unresolved interfaces left out, is the definition the search is proved against |
| Hierarchy.PreOrderFrom | mcs/tools/linker/Mono.Linker.Steps/TypeMapStep.cs:130-142 | every entry of the pre-order from the interface at position i on is a loaded type |
| Hierarchy.Visit | mcs/tools/linker/Mono.Linker.Steps/TypeMapStep.cs:131-141 | every entry that one interface contributes to the pre-order is a loaded type: nothing when it is unresolved, otherwise itself followed by its own pre-order |
| Hierarchy.PreOrderBelow | mcs/tools/linker/Mono.Linker.Steps/TypeMapStep.cs:139 | every type in the pre-order ranks strictly below the type whose interfaces are walked |
| Hierarchy.BaseMethodInInterfaceHierarchy | mcs/tools/linker/Mono.Linker.Steps/TypeMapStep.cs:120-145 | the interface search is the first hit along the pre-order of the declaring type's own interfaces |
| Hierarchy.InterfacesFrom | mcs/tools/linker/Mono.Linker.Steps/TypeMapStep.cs:130-144 | the loop from position i is the first hit along the pre-order from i: an unresolved interface is skipped, an interface's own methods come before its sub-interfaces |
| Hierarchy.PreOrderStep | mcs/tools/linker/Mono.Linker.Steps/TypeMapStep.cs:135-141 | at a resolved interface, its own match wins, then a match below it, and only then the later interfaces |
| Hierarchy.FirstHitIsFirstMatch | mcs/tools/linker/Mono.Linker.Steps/TypeMapStep.cs:147-157 | a first hit is the first matching method of a type along the order, and every earlier type has no matching method |
| Hierarchy.InterfaceSearchIsFirstInPreOrder | mcs/tools/linker/Mono.Linker.Steps/TypeMapStep.cs:125-145 | the result is the first matching method of the first interface in pre-order that has one; it never belongs to the type itself; there is none exactly when no interface in the pre-order has a match |
| Hierarchy.EarlierInterfaceWins | mcs/tools/linker/Mono.Linker.Steps/TypeMapStep.cs:130-142 | when every earlier interface and everything below it has no match and interface i has one, the search returns interface i's match |
| Hierarchy.BarrenPrefix | mcs/tools/linker/Mono.Linker.Steps/TypeMapStep.cs:130-141 | when the interfaces before position i and everything below them have no match, neither does any type in the pre-order before the part contributed by interface i |
| Hierarchy.ClassSearchIgnoresInterfaces | mcs/tools/linker/Mono.Linker.Steps/TypeMapStep.cs:106-118 | the class-chain search depends only on base types and methods, never on interface lists |
| Hierarchy.InterfaceSearchIgnoresBaseTypes | mcs/tools/linker/Mono.Linker.Steps/TypeMapStep.cs:120-145 | the interface search depends only on interface lists and methods: the interfaces of base classes are never consulted |
| Hierarchy.FirstHitReadsOnlyMethods | mcs/tools/linker/Mono.Linker.Steps/TypeMapStep.cs:147-157 | a first hit depends only on the methods of the types along the order |
| Hierarchy.AncestorsReadOnlyBases | mcs/tools/linker/Mono.Linker.Steps/TypeMapStep.cs:232-238 | the ancestor chain depends only on base-type references |
| Hierarchy.PreOrderReadsOnlyInterfaces | mcs/tools/linker/Mono.Linker.Steps/TypeMapStep.cs:125-145 | the interface pre-order depends only on interface lists |
| Annotations.Insert | mcs/tools/linker/Mono.Linker.Steps/TypeMapStep.cs:102-103 | adding to one index changes only the set under the given key, which gains the value; adding a present value changes nothing |
| Annotations.QueriesAreInverse | mcs/tools/linker/Mono.Linker.Steps/TypeMapStep.cs:100-104 | in a consistent store, "overrides of b" contains o exactly when "base methods of o" contains b, exactly when the edge is recorded |
| Annotations.AnnotateMethods | mcs/tools/linker/Mono.Linker.Steps/TypeMapStep.cs:100-104 | the store gains exactly the one edge, stays consistent, and is unchanged if it already held it |
| TypeMapStep.MapVirtualBaseMethod | mcs/tools/linker/Mono.Linker.Steps/TypeMapStep.cs:71-78 | adds the edge from the first hit along the ancestors, if any, and nothing else |
| TypeMapStep.MapVirtualInterfaceMethod | mcs/tools/linker/Mono.Linker.Steps/TypeMapStep.cs:80-87 | adds the edge from the first hit along the interface pre-order, if any, and nothing else |
| TypeMapStep.MapVirtualMethod | mcs/tools/linker/Mono.Linker.Steps/TypeMapStep.cs:65-69 | adds the class edge and the interface edge, independently of each other |
| TypeMapStep.MapOverrides | mcs/tools/linker/Mono.Linker.Steps/TypeMapStep.cs:89-98 | adds an edge for every explicit override that resolves, with no name or signature check, and nothing else |
| TypeMapStep.OverridesFrom | mcs/tools/linker/Mono.Linker.Steps/TypeMapStep.cs:91-97 | the loop from reference k adds the edges of the resolving references at or after k |
| TypeMapStep.MethodsFrom | mcs/tools/linker/Mono.Linker.Steps/TypeMapStep.cs:54-62 | the loop from method i adds exactly the edges owed to the methods at or after i |
| TypeMapStep.MapVirtualMethods | mcs/tools/linker/Mono.Linker.Steps/TypeMapStep.cs:49-63 | adds exactly the edges owed to the methods of the type: none for non-virtual ones |
| TypeMapStep.ProcessAssembly | mcs/tools/linker/Mono.Linker.Steps/TypeMapStep.cs:38-47 | adds exactly the edges owed to the methods of the given types, keeps the indexes inverse, and changes nothing when those edges are all present |
| PassProperties.AssemblyEdgesByMethod | mcs/tools/linker/Mono.Linker.Steps/TypeMapStep.cs:38-62 | an edge is owed to the assembly exactly when its overrider is a method of one of its types and the edge is owed to that method |
| PassProperties.EdgesPerMethod | mcs/tools/linker/Mono.Linker.Steps/TypeMapStep.cs:49-63 | a method of a mapped type gains exactly the edges it is owed; every other method's edges are unchanged |
| PassProperties.NonVirtualGetsNoEdges | mcs/tools/linker/Mono.Linker.Steps/TypeMapStep.cs:55-56 | a non-virtual method is never recorded as an overrider |
| PassProperties.ExplicitOverridesRecorded | mcs/tools/linker/Mono.Linker.Steps/TypeMapStep.cs:89-98 | every resolving explicit override of a virtual method is recorded, whatever its name or signature |
| PassProperties.SearchResultsRecorded | mcs/tools/linker/Mono.Linker.Steps/TypeMapStep.cs:65-87 | the results of both searches for a virtual method are recorded |
| PassProperties.AtMostTwoSearchEdges | mcs/tools/linker/Mono.Linker.Steps/TypeMapStep.cs:65-98 | the searches give a method at most two edges; every other edge it gets is an explicit override |
| PassProperties.FirstHitMatches | mcs/tools/linker/Mono.Linker.Steps/TypeMapStep.cs:110-112 | a first hit is a resolvable method, declared along the order, that occupies the searched slot |
| PassProperties.SearchEdgesJustified | mcs/tools/linker/Mono.Linker.Steps/TypeMapStep.cs:106-145 | a search edge joins a virtual method to a matching method of another type on its ancestor chain or in its interface pre-order |
| PassProperties.RecordedEdgesJustified | mcs/tools/linker/Mono.Linker.Steps/TypeMapStep.cs:49-104 | every edge recorded from an empty store has a virtual overrider of a mapped type, and a base that is an explicit override or a matching method found by a search |
| PassProperties.QueriesAfterPass | mcs/tools/linker/Mono.Linker.Steps/TypeMapStep.cs:100-104 | after the pass, both store queries answer with exactly the owed edges of a mapped method |
| PassProperties.ProcessAssemblyIdempotent | mcs/tools/linker/Mono.Linker.Steps/TypeMapStep.cs:38-47 | mapping the same types again leaves a consistent store unchanged |
| PassProperties.ProcessAssemblyOrderIrrelevant | mcs/tools/linker/Mono.Linker.Steps/TypeMapStep.cs:38-42 | the recorded edges depend only on which types are mapped, not on their order or repetition |
| Scenarios.NearestAncestorWins | mcs/tools/linker/Mono.Linker.Steps/TypeMapStep.cs:106-118 | in the chain C, B, A, where all three declare `M`, `C.M` finds `B.M` |
| Scenarios.DirectOverride | mcs/tools/linker/Mono.Linker.Steps/TypeMapStep.cs:49-104 | when B derives from A and both declare `M`, mapping B records only the edge from `A.M` to `B.M` |
| Scenarios.OwedToB | mcs/tools/linker/Mono.Linker.Steps/TypeMapStep.cs:65-98 | the edge from `A.M` is the only one owed to `B.M` |
| Scenarios.FirstDeclaredInterfaceWins | mcs/tools/linker/Mono.Linker.Steps/TypeMapStep.cs:130-142 | with the interfaces IX (unresolved), IA, IB, where IA and IB both declare `M`, IX is skipped and IA wins over IB |
| Scenarios.ExplicitOverrideIgnoresName | mcs/tools/linker/Mono.Linker.Steps/TypeMapStep.cs:89-98 | an explicit override named differently from its target is still recorded |
| Scenarios.WildcardCrossMatch | mcs/tools/linker/Mono.Linker.Steps/TypeMapStep.cs:217-220 | a new virtual `Add(string)` of a class derived from an instantiation of ``G`1`` is found to override ``G`1``'s `Add(T)`, whatever the type argument |

## Left out

- `ExpressionPrinter.cs` is not part of this model. The override mapping does not use it.
- Metadata loading and `Resolve()` are not modelled. The loaded types are a map, and a reference resolves when its identity is a key.
- The step pipeline (`BaseStep`, the iteration over assemblies) is not modelled. An assembly's types are given as a sequence of type identities, and `MapType` is folded into `ProcessAssembly` because it only forwards.
- The global annotation store is not modelled beyond the two indexes written here. They are maps of sets, so each relationship is held at most once. Whether the real store deduplicates is not modelled.
- Cycles are excluded everywhere by the `Acyclic` precondition of the searches. It asks for one rank map that is strictly decreasing along every resolvable base-type and interface reference of the whole graph. So it also rules out graphs on which the source terminates: a cycle that no mapped type reaches, a cycle that mixes a base-type edge with an interface edge (neither walk follows both), and a cyclic base chain on which a type with a matching method comes before the cycle closes (the loop returns there). On a cycle that a walk actually follows without finding a match, the source has no guard and does not terminate.
- `GetBaseType`'s check for a null type is not modelled, because every caller passes a loaded type.
- The subclasses of Cecil's `TypeSpecification` other than generic instances and modified types (arrays, pointers, by-reference, pinned, sentinel and function-pointer types) are represented by one `SpecKind` tag each. Whatever they carry besides their element type (array dimensions and the like) is kept as an opaque `detail` that the matcher never reads, just as the source never reads it.
- The generic-parameter wildcard makes a virtual method of a class derived from an instantiation such as `G<int>` occupy the slot of `G<T>`'s method whatever its own parameter types, because the base reference is resolved to the open definition and a parameter on the candidate side matches anything (`Scenarios.WildcardCrossMatch`). The model keeps this behaviour and does not substitute the base's type arguments.
- The `HasMethods`, `HasInterfaces` and `HasOverrides` guards are modelled as checks for an empty list.
- The source does not check that an explicit override's target is virtual. A dispatch relationship is expected to join two virtual methods, but an explicit override may name a non-virtual target and it is recorded all the same. The model follows the code: `PassProperties.Justified` requires only the overrider to be virtual.
- `PassProperties.RecordedEdgesJustified`: for explicit overrides it states only that the base is named by the overrider, because the code checks nothing else about such a base.
