/** The frozen, read-only view of the loaded types that the override mapping
    queries. Loading metadata is not modelled: a reference resolves when its
    identity is a key of the graph, and is unresolved otherwise. */
module TypeGraph {
  import opened Options
  import opened TypeRefs

  /** The identity of a type definition (its full name). */
  type TypeId = string

  /** The identity of a method definition: its declaring type and its
      position in that type's method list. */
  datatype MethodId = MethodId(owner: TypeId, index: nat)

  /** A method definition: name, virtual flag, return type, parameter types
      in order, and its explicit override references. */
  datatype MethodDef = MethodDef(
    name: string,
    isVirtual: bool,
    returnType: TypeRef,
    params: seq<TypeRef>,
    overrides: seq<MethodId>)

  /** A type definition: the reference to its base type (absent for a root
      or an interface), its directly declared interfaces in declaration order,
      and its methods in declaration order. */
  datatype TypeDef = TypeDef(
    baseType: Option<TypeId>,
    interfaces: seq<TypeId>,
    methods: seq<MethodDef>)

  datatype Graph = Graph(types: map<TypeId, TypeDef>)

  /** Resolution of a method reference to its definition. */
  function ResolveMethod(g: Graph, r: MethodId): (d: Option<MethodDef>)
    ensures d.Some? <==> r.owner in g.types && r.index < |g.types[r.owner].methods|
    ensures d.Some? ==> d.value == g.types[r.owner].methods[r.index]
  {
    if r.owner in g.types && r.index < |g.types[r.owner].methods| then
      Some(g.types[r.owner].methods[r.index])
    else
      None
  }

  /** The method a method identity denotes, for identities known to resolve. */
  function MethodOf(g: Graph, r: MethodId): MethodDef
    requires ResolveMethod(g, r).Some?
  {
    g.types[r.owner].methods[r.index]
  }

  /** `h` ranks the types so that every resolvable base type and every
      resolvable interface ranks strictly below the type that names it. */
  ghost predicate Layered(g: Graph, h: map<TypeId, nat>) {
    && g.types.Keys <= h.Keys
    && (forall t :: t in g.types && g.types[t].baseType.Some? && g.types[t].baseType.value in g.types ==>
          h[g.types[t].baseType.value] < h[t])
    && (forall t, i :: t in g.types && 0 <= i < |g.types[t].interfaces| && g.types[t].interfaces[i] in g.types ==>
          h[g.types[t].interfaces[i]] < h[t])
  }

  /** Neither the base chain nor the interface graph has a cycle: the walks
      of the override mapping, which have no cycle guard, terminate. */
  ghost predicate Acyclic(g: Graph) {
    exists h :: Layered(g, h)
  }

  ghost function Rank(g: Graph): (h: map<TypeId, nat>)
    requires Acyclic(g)
    ensures Layered(g, h)
  {
    var h :| Layered(g, h); h
  }
}
