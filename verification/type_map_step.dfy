/** The override-mapping pass itself: for every virtual method of every type
    of an assembly, record the method it overrides up the class chain, the one
    it overrides in its interfaces, and every resolvable explicit override. */
module TypeMapStep {
  import opened Options
  import opened TypeGraph
  import opened MethodMatching
  import opened Hierarchy
  import opened Annotations

  // ---------------------------------------------------------------------
  // What must be recorded, stated against the reference orders

  /** The edge from the base a search found (if any) to `self`. */
  function EdgeTo(found: Option<MethodId>, self: MethodId): set<Edge> {
    match found
    case None => {}
    case Some(b) => {Edge(b, self)}
  }

  /** The explicit override references of `self` that resolve, as edges. */
  function ExplicitEdges(g: Graph, self: MethodId): set<Edge>
    requires ResolveMethod(g, self).Some?
  {
    var refs := MethodOf(g, self).overrides;
    set k | 0 <= k < |refs| && ResolveMethod(g, refs[k]).Some? :: Edge(refs[k], self)
  }

  /** The edges from the first match along the ancestors of the declaring
      type of `self` and from the first match along that type's interface
      pre-order. */
  function SearchEdges(g: Graph, self: MethodId): set<Edge>
    requires Acyclic(g) && ResolveMethod(g, self).Some?
  {
    var m := MethodOf(g, self);
    EdgeTo(FirstHit(g, Ancestors(g, self.owner), m), self)
      + EdgeTo(FirstHit(g, PreOrder(g, self.owner), m), self)
  }

  /** The edges the pass owes the method `self`: none if it is not virtual;
      otherwise its two search edges and its resolvable explicit overrides. */
  function MethodEdges(g: Graph, self: MethodId): set<Edge>
    requires Acyclic(g) && ResolveMethod(g, self).Some?
  {
    if !MethodOf(g, self).isVirtual then {}
    else SearchEdges(g, self) + ExplicitEdges(g, self)
  }

  /** The edges owed to the methods of `t` from position `i` on. */
  function TypeEdgesFrom(g: Graph, t: TypeId, i: nat): set<Edge>
    requires Acyclic(g) && t in g.types
  {
    set j, e | i <= j < |g.types[t].methods| && e in MethodEdges(g, MethodId(t, j)) :: e
  }

  /** The edges owed to the methods of `t`. */
  function TypeEdges(g: Graph, t: TypeId): set<Edge>
    requires Acyclic(g) && t in g.types
  {
    TypeEdgesFrom(g, t, 0)
  }

  /** The edges owed to the methods of the types `ts`. */
  function AssemblyEdges(g: Graph, ts: seq<TypeId>): set<Edge>
    requires Acyclic(g) && forall t :: t in ts ==> t in g.types
  {
    set t, e | t in ts && e in TypeEdges(g, t) :: e
  }

  /** `s` is consistent and already holds every edge of `es`. */
  predicate Holds(s: Store, es: set<Edge>) {
    Consistent(s) && es <= Edges(s)
  }

  // ---------------------------------------------------------------------
  // The pass

  /** Records the class-chain base of `self`, if the search finds one. */
  function MapVirtualBaseMethod(g: Graph, s: Store, self: MethodId): (r: Store)
    requires Acyclic(g) && ResolveMethod(g, self).Some?
    ensures Edges(r) == Edges(s) + EdgeTo(FirstHit(g, Ancestors(g, self.owner), MethodOf(g, self)), self)
    ensures Consistent(s) ==> Consistent(r)
    ensures Holds(s, EdgeTo(FirstHit(g, Ancestors(g, self.owner), MethodOf(g, self)), self)) ==> r == s
  {
    match BaseMethodInTypeHierarchy(g, self.owner, MethodOf(g, self))
    case None => s
    case Some(b) => AnnotateMethods(s, b, self)
  }

  /** Records the interface base of `self`, if the search finds one. */
  function MapVirtualInterfaceMethod(g: Graph, s: Store, self: MethodId): (r: Store)
    requires Acyclic(g) && ResolveMethod(g, self).Some?
    ensures Edges(r) == Edges(s) + EdgeTo(FirstHit(g, PreOrder(g, self.owner), MethodOf(g, self)), self)
    ensures Consistent(s) ==> Consistent(r)
    ensures Holds(s, EdgeTo(FirstHit(g, PreOrder(g, self.owner), MethodOf(g, self)), self)) ==> r == s
  {
    match BaseMethodInInterfaceHierarchy(g, self.owner, MethodOf(g, self))
    case None => s
    case Some(b) => AnnotateMethods(s, b, self)
  }

  /** The class-chain search and then, independently, the interface search. */
  function MapVirtualMethod(g: Graph, s: Store, self: MethodId): (r: Store)
    requires Acyclic(g) && ResolveMethod(g, self).Some?
    ensures Edges(r) == Edges(s) + SearchEdges(g, self)
    ensures Consistent(s) ==> Consistent(r)
    ensures Holds(s, SearchEdges(g, self)) ==> r == s
  {
    var m := MethodOf(g, self);
    var classEdge := EdgeTo(FirstHit(g, Ancestors(g, self.owner), m), self);
    var interfaceEdge := EdgeTo(FirstHit(g, PreOrder(g, self.owner), m), self);
    assert SearchEdges(g, self) == classEdge + interfaceEdge;
    var s1 := MapVirtualBaseMethod(g, s, self);
    assert Holds(s, classEdge + interfaceEdge) ==> s1 == s && Holds(s1, interfaceEdge);
    MapVirtualInterfaceMethod(g, s1, self)
  }

  /** Records every explicit override of `self` that resolves, with no name
      or signature check; unresolvable references are skipped. */
  function MapOverrides(g: Graph, s: Store, self: MethodId): (r: Store)
    requires ResolveMethod(g, self).Some?
    ensures Edges(r) == Edges(s) + ExplicitEdges(g, self)
    ensures Consistent(s) ==> Consistent(r)
    ensures Holds(s, ExplicitEdges(g, self)) ==> r == s
  {
    OverridesFrom(g, s, self, 0)
  }

  /** The loop of `MapOverrides`, from reference `k`. */
  function OverridesFrom(g: Graph, s: Store, self: MethodId, k: nat): (r: Store)
    requires ResolveMethod(g, self).Some? && k <= |MethodOf(g, self).overrides|
    decreases |MethodOf(g, self).overrides| - k
    ensures var refs := MethodOf(g, self).overrides;
      Edges(r) == Edges(s) + set j | k <= j < |refs| && ResolveMethod(g, refs[j]).Some? :: Edge(refs[j], self)
    ensures Consistent(s) ==> Consistent(r)
    ensures var refs := MethodOf(g, self).overrides;
      Holds(s, set j | k <= j < |refs| && ResolveMethod(g, refs[j]).Some? :: Edge(refs[j], self)) ==> r == s
  {
    var refs := MethodOf(g, self).overrides;
    if k == |refs| then s
    else
      var later := set j | k + 1 <= j < |refs| && ResolveMethod(g, refs[j]).Some? :: Edge(refs[j], self);
      var here := if ResolveMethod(g, refs[k]).Some? then {Edge(refs[k], self)} else {};
      assert (set j | k <= j < |refs| && ResolveMethod(g, refs[j]).Some? :: Edge(refs[j], self)) == here + later;
      var s' := if ResolveMethod(g, refs[k]).None? then s else AnnotateMethods(s, refs[k], self);
      OverridesFrom(g, s', self, k + 1)
  }

  /** Maps the methods of `t` from position `i` on: non-virtual methods are
      skipped; a virtual method gets its two searches, then its explicit
      overrides. */
  function MethodsFrom(g: Graph, s: Store, t: TypeId, i: nat): (r: Store)
    requires Acyclic(g) && t in g.types && i <= |g.types[t].methods|
    decreases |g.types[t].methods| - i
    ensures Edges(r) == Edges(s) + TypeEdgesFrom(g, t, i)
    ensures Consistent(s) ==> Consistent(r)
    ensures Holds(s, TypeEdgesFrom(g, t, i)) ==> r == s
  {
    if i == |g.types[t].methods| then
      assert TypeEdgesFrom(g, t, i) == {};
      s
    else
      var self := MethodId(t, i);
      assert TypeEdgesFrom(g, t, i) == MethodEdges(g, self) + TypeEdgesFrom(g, t, i + 1) by {
        forall e | e in TypeEdgesFrom(g, t, i) ensures e in MethodEdges(g, self) + TypeEdgesFrom(g, t, i + 1) {
          var j :| i <= j < |g.types[t].methods| && e in MethodEdges(g, MethodId(t, j));
        }
      }
      var s' := if !MethodOf(g, self).isVirtual then s
                else MapOverrides(g, MapVirtualMethod(g, s, self), self);
      MethodsFrom(g, s', t, i + 1)
  }

  /** Maps every virtual method of `t`. */
  function MapVirtualMethods(g: Graph, s: Store, t: TypeId): (r: Store)
    requires Acyclic(g) && t in g.types
    ensures Edges(r) == Edges(s) + TypeEdges(g, t)
    ensures Consistent(s) ==> Consistent(r)
    ensures Holds(s, TypeEdges(g, t)) ==> r == s
  {
    if |g.types[t].methods| == 0 then
      assert TypeEdges(g, t) == {};
      s
    else
      MethodsFrom(g, s, t, 0)
  }

  /** Maps every type of an assembly, in order. */
  function ProcessAssembly(g: Graph, s: Store, ts: seq<TypeId>): (r: Store)
    requires Acyclic(g) && forall t :: t in ts ==> t in g.types
    ensures Edges(r) == Edges(s) + AssemblyEdges(g, ts)
    ensures Consistent(s) ==> Consistent(r)
    ensures Holds(s, AssemblyEdges(g, ts)) ==> r == s
    decreases |ts|
  {
    if |ts| == 0 then
      assert AssemblyEdges(g, ts) == {};
      s
    else
      assert AssemblyEdges(g, ts) == TypeEdges(g, ts[0]) + AssemblyEdges(g, ts[1..]) by {
        forall e | e in AssemblyEdges(g, ts) ensures e in TypeEdges(g, ts[0]) + AssemblyEdges(g, ts[1..]) {
          var t :| t in ts && e in TypeEdges(g, t);
          if t != ts[0] {
            assert t in ts[1..];
          }
        }
        forall e | e in TypeEdges(g, ts[0]) + AssemblyEdges(g, ts[1..]) ensures e in AssemblyEdges(g, ts) {
          if e !in TypeEdges(g, ts[0]) {
            var t :| t in ts[1..] && e in TypeEdges(g, t);
            assert t in ts;
          }
        }
      }
      ProcessAssembly(g, MapVirtualMethods(g, s, ts[0]), ts[1..])
  }
}
