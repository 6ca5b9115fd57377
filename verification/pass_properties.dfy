/** Properties of the whole override-mapping pass: what it records for each
    method, why every recorded relationship is justified, and that mapping
    again, or mapping the same types in another order, records nothing new. */
module PassProperties {
  import opened Options
  import opened TypeGraph
  import opened MethodMatching
  import opened Hierarchy
  import opened Annotations
  import opened TypeMapStep

  /** The relationships among `es` in which `self` is the overrider. */
  function EdgesOf(es: set<Edge>, self: MethodId): set<Edge> {
    set e | e in es && e.overrider == self
  }

  /** Every edge owed to `self` has `self` as its overrider. */
  lemma OwedEdgesBelongToSelf(g: Graph, self: MethodId)
    requires Acyclic(g) && ResolveMethod(g, self).Some?
    ensures forall e :: e in MethodEdges(g, self) ==> e.overrider == self
  {
  }

  /** The edges owed to the types `ts` are those owed to the methods of
      those types. */
  lemma AssemblyEdgesByMethod(g: Graph, ts: seq<TypeId>, e: Edge)
    requires Acyclic(g) && forall t :: t in ts ==> t in g.types
    ensures e in AssemblyEdges(g, ts) <==>
      e.overrider.owner in ts && ResolveMethod(g, e.overrider).Some? && e in MethodEdges(g, e.overrider)
  {
    if e in AssemblyEdges(g, ts) {
      var t :| t in ts && e in TypeEdges(g, t);
      var j :| 0 <= j < |g.types[t].methods| && e in MethodEdges(g, MethodId(t, j));
      OwedEdgesBelongToSelf(g, MethodId(t, j));
    }
    if e.overrider.owner in ts && ResolveMethod(g, e.overrider).Some? && e in MethodEdges(g, e.overrider) {
      var t := e.overrider.owner;
      var j := e.overrider.index;
      assert e in TypeEdges(g, t);
    }
  }

  /** For a method of one of the mapped types, the pass adds exactly the
      edges it is owed; the edges of every other method are left alone. */
  lemma EdgesPerMethod(g: Graph, s: Store, ts: seq<TypeId>, self: MethodId)
    requires Acyclic(g) && forall t :: t in ts ==> t in g.types
    ensures self.owner in ts && ResolveMethod(g, self).Some? ==>
      EdgesOf(Edges(ProcessAssembly(g, s, ts)), self) == EdgesOf(Edges(s), self) + MethodEdges(g, self)
    ensures !(self.owner in ts && ResolveMethod(g, self).Some?) ==>
      EdgesOf(Edges(ProcessAssembly(g, s, ts)), self) == EdgesOf(Edges(s), self)
  {
    var r := ProcessAssembly(g, s, ts);
    forall e | e in Edges(r) && e.overrider == self
      ensures e in Edges(s) || (self.owner in ts && ResolveMethod(g, self).Some? && e in MethodEdges(g, self))
    {
      AssemblyEdgesByMethod(g, ts, e);
    }
    if self.owner in ts && ResolveMethod(g, self).Some? {
      OwedEdgesBelongToSelf(g, self);
      forall e | e in MethodEdges(g, self) ensures e in Edges(r) {
        AssemblyEdgesByMethod(g, ts, e);
      }
    }
  }

  /** A non-virtual method never gets an edge. */
  lemma NonVirtualGetsNoEdges(g: Graph, ts: seq<TypeId>, self: MethodId)
    requires Acyclic(g) && forall t :: t in ts ==> t in g.types
    requires ResolveMethod(g, self).Some? && !MethodOf(g, self).isVirtual
    ensures EdgesOf(Edges(ProcessAssembly(g, Empty, ts)), self) == {}
  {
    EdgesPerMethod(g, Empty, ts, self);
  }

  /** Every explicit override of a virtual method that resolves is recorded,
      whatever its name or signature. */
  lemma ExplicitOverridesRecorded(g: Graph, s: Store, ts: seq<TypeId>, self: MethodId, k: nat)
    requires Acyclic(g) && forall t :: t in ts ==> t in g.types
    requires self.owner in ts && ResolveMethod(g, self).Some? && MethodOf(g, self).isVirtual
    requires k < |MethodOf(g, self).overrides| && ResolveMethod(g, MethodOf(g, self).overrides[k]).Some?
    ensures Edge(MethodOf(g, self).overrides[k], self) in Edges(ProcessAssembly(g, s, ts))
  {
    var e := Edge(MethodOf(g, self).overrides[k], self);
    assert e in ExplicitEdges(g, self);
    AssemblyEdgesByMethod(g, ts, e);
  }

  /** A virtual method gets the first match along its ancestors and the
      first match along its interface pre-order, when there are any. */
  lemma SearchResultsRecorded(g: Graph, s: Store, ts: seq<TypeId>, self: MethodId)
    requires Acyclic(g) && forall t :: t in ts ==> t in g.types
    requires self.owner in ts && ResolveMethod(g, self).Some? && MethodOf(g, self).isVirtual
    ensures var r := ProcessAssembly(g, s, ts);
      var m := MethodOf(g, self);
      && (BaseMethodInTypeHierarchy(g, self.owner, m).Some? ==>
            Edge(BaseMethodInTypeHierarchy(g, self.owner, m).value, self) in Edges(r))
      && (BaseMethodInInterfaceHierarchy(g, self.owner, m).Some? ==>
            Edge(BaseMethodInInterfaceHierarchy(g, self.owner, m).value, self) in Edges(r))
  {
    var m := MethodOf(g, self);
    var c := BaseMethodInTypeHierarchy(g, self.owner, m);
    var i := BaseMethodInInterfaceHierarchy(g, self.owner, m);
    if c.Some? {
      assert Edge(c.value, self) in SearchEdges(g, self);
      AssemblyEdgesByMethod(g, ts, Edge(c.value, self));
    }
    if i.Some? {
      assert Edge(i.value, self) in SearchEdges(g, self);
      AssemblyEdgesByMethod(g, ts, Edge(i.value, self));
    }
  }

  /** The searches add at most two edges per method, one per search; every
      other edge of the method is one of its explicit overrides. */
  lemma AtMostTwoSearchEdges(g: Graph, ts: seq<TypeId>, self: MethodId)
    requires Acyclic(g) && forall t :: t in ts ==> t in g.types
    requires ResolveMethod(g, self).Some?
    ensures |SearchEdges(g, self)| <= 2
    ensures forall e :: e in EdgesOf(Edges(ProcessAssembly(g, Empty, ts)), self) ==>
      e in SearchEdges(g, self) || e in ExplicitEdges(g, self)
  {
    var m := MethodOf(g, self);
    var c := EdgeTo(FirstHit(g, Ancestors(g, self.owner), m), self);
    var i := EdgeTo(FirstHit(g, PreOrder(g, self.owner), m), self);
    assert |c| <= 1 && |i| <= 1;
    assert |c + i| <= |c| + |i|;
    EdgesPerMethod(g, Empty, ts, self);
  }

  /** Why `e` may be recorded: its overrider is a virtual method, its base
      resolves, and either the overrider names the base as an explicit
      override, or the base is a method of another type, on the ancestor
      chain or in the interface pre-order of the overrider's type, that
      occupies the overrider's slot. */
  ghost predicate Justified(g: Graph, e: Edge)
    requires Acyclic(g)
  {
    && ResolveMethod(g, e.overrider).Some?
    && MethodOf(g, e.overrider).isVirtual
    && ResolveMethod(g, e.base).Some?
    && (|| e.base in MethodOf(g, e.overrider).overrides
        || (&& e.base.owner != e.overrider.owner
            && (e.base.owner in Ancestors(g, e.overrider.owner) || e.base.owner in PreOrder(g, e.overrider.owner))
            && MethodMatch(MethodOf(g, e.base), MethodOf(g, e.overrider))))
  }

  /** The first hit along `xs` is a method, declared by a type of `xs`,
      that occupies the slot of `m`. */
  lemma FirstHitMatches(g: Graph, xs: seq<TypeId>, m: MethodDef, v: MethodId)
    requires forall x :: x in xs ==> x in g.types
    requires FirstHit(g, xs, m) == Some(v)
    ensures v.owner in xs && ResolveMethod(g, v).Some? && MethodMatch(MethodOf(g, v), m)
  {
    FirstHitIsFirstMatch(g, xs, m);
    var j :| FirstMatchAlong(g, xs, m, j, v);
    assert xs[j] in xs;
  }

  /** Every edge found by a search joins a matching method of a strictly
      lower type. */
  lemma SearchEdgesJustified(g: Graph, self: MethodId, e: Edge)
    requires Acyclic(g) && ResolveMethod(g, self).Some? && MethodOf(g, self).isVirtual
    requires e in SearchEdges(g, self)
    ensures Justified(g, e)
  {
    var m := MethodOf(g, self);
    var anc := Ancestors(g, self.owner);
    var pre := PreOrder(g, self.owner);
    if e in EdgeTo(FirstHit(g, anc, m), self) {
      FirstHitMatches(g, anc, m, e.base);
    } else {
      assert e in EdgeTo(FirstHit(g, pre, m), self);
      FirstHitMatches(g, pre, m, e.base);
      PreOrderBelow(g, self.owner);
    }
  }

  /** Every edge the pass records, starting from an empty store, is
      justified, and its overrider belongs to one of the mapped types. */
  lemma RecordedEdgesJustified(g: Graph, ts: seq<TypeId>, e: Edge)
    requires Acyclic(g) && forall t :: t in ts ==> t in g.types
    requires e in Edges(ProcessAssembly(g, Empty, ts))
    ensures e.overrider.owner in ts && Justified(g, e)
  {
    AssemblyEdgesByMethod(g, ts, e);
    var self := e.overrider;
    if e in SearchEdges(g, self) {
      SearchEdgesJustified(g, self, e);
    } else {
      var k :| 0 <= k < |MethodOf(g, self).overrides| && ResolveMethod(g, MethodOf(g, self).overrides[k]).Some?
        && e == Edge(MethodOf(g, self).overrides[k], self);
      assert MethodOf(g, self).overrides[k] in MethodOf(g, self).overrides;
    }
  }

  /** After the pass, the store's queries answer with exactly the owed
      edges, in both directions. */
  lemma QueriesAfterPass(g: Graph, ts: seq<TypeId>, self: MethodId, b: MethodId)
    requires Acyclic(g) && forall t :: t in ts ==> t in g.types
    requires self.owner in ts && ResolveMethod(g, self).Some?
    ensures var r := ProcessAssembly(g, Empty, ts);
      && (b in BasesOf(r, self) <==> Edge(b, self) in MethodEdges(g, self))
      && (self in OverridesOf(r, b) <==> Edge(b, self) in MethodEdges(g, self))
  {
    var r := ProcessAssembly(g, Empty, ts);
    assert Consistent(Empty);
    EdgesPerMethod(g, Empty, ts, self);
    QueriesAreInverse(r, b, self);
    assert Edge(b, self) in Edges(r) <==> Edge(b, self) in EdgesOf(Edges(r), self);
  }

  /** Mapping the same types a second time changes nothing. */
  lemma ProcessAssemblyIdempotent(g: Graph, s: Store, ts: seq<TypeId>)
    requires Acyclic(g) && forall t :: t in ts ==> t in g.types
    requires Consistent(s)
    ensures ProcessAssembly(g, ProcessAssembly(g, s, ts), ts) == ProcessAssembly(g, s, ts)
  {
    var r := ProcessAssembly(g, s, ts);
    assert Holds(r, AssemblyEdges(g, ts));
  }

  /** The edges recorded depend on which types are mapped, not on their
      order or repetition. */
  lemma ProcessAssemblyOrderIrrelevant(g: Graph, s: Store, ts: seq<TypeId>, us: seq<TypeId>)
    requires Acyclic(g) && forall t :: t in ts ==> t in g.types
    requires forall t :: t in ts <==> t in us
    ensures Edges(ProcessAssembly(g, s, ts)) == Edges(ProcessAssembly(g, s, us))
  {
    forall e ensures e in AssemblyEdges(g, ts) <==> e in AssemblyEdges(g, us) {
      AssemblyEdgesByMethod(g, ts, e);
      AssemblyEdgesByMethod(g, us, e);
    }
  }
}
