/** Small concrete hierarchies on which the searches and the pass are
    worked out by hand. */
module Scenarios {
  import opened Options
  import opened TypeRefs
  import opened TypeGraph
  import opened MethodMatching
  import opened Hierarchy
  import opened Annotations
  import opened TypeMapStep
  import opened PassProperties

  /** A virtual `void M()` with no explicit overrides. */
  const M: MethodDef := MethodDef("M", true, Named("System.Void"), [], [])

  /** The chain C derives from B, B from A; all three declare `M`. */
  const Chain: Graph := Graph(map[
    "A" := TypeDef(None, [], [M]),
    "B" := TypeDef(Some("A"), [], [M]),
    "C" := TypeDef(Some("B"), [], [M])])

  /** `M` of the class C overrides that of its parent B, not that of A. */
  lemma NearestAncestorWins()
    ensures Acyclic(Chain)
    ensures BaseMethodInTypeHierarchy(Chain, "C", M) == Some(MethodId("B", 0))
  {
    assert Layered(Chain, map["A" := 0, "B" := 1, "C" := 2]);
    assert GetBaseType(Chain, "C") == Some("B");
    assert TryMatchMethod(Chain.types["B"], M) == Some(0);
  }

  /** Mapping B alone records exactly one edge for `B.M`: the one to `A.M`. */
  lemma DirectOverride()
    ensures Acyclic(Chain)
    ensures EdgesOf(Edges(ProcessAssembly(Chain, Empty, ["B"])), MethodId("B", 0)) ==
      {Edge(MethodId("A", 0), MethodId("B", 0))}
  {
    OwedToB();
    EdgesPerMethod(Chain, Empty, ["B"], MethodId("B", 0));
    assert EdgesOf(Edges(Empty), MethodId("B", 0)) == {};
  }

  /** `B.M` is owed only the edge to `A.M`. */
  lemma OwedToB()
    ensures Acyclic(Chain)
    ensures MethodEdges(Chain, MethodId("B", 0)) == {Edge(MethodId("A", 0), MethodId("B", 0))}
  {
    assert Layered(Chain, map["A" := 0, "B" := 1, "C" := 2]);
    var self := MethodId("B", 0);
    assert Ancestors(Chain, "B") == ["A"] by {
      assert GetBaseType(Chain, "A").None?;
    }
    assert TryMatchMethod(Chain.types["A"], M) == Some(0);
    assert FirstHit(Chain, ["A"], M) == Some(MethodId("A", 0));
    assert PreOrder(Chain, "B") == [];
    assert SearchEdges(Chain, self) == {Edge(MethodId("A", 0), self)};
    assert ExplicitEdges(Chain, self) == {};
  }

  /** T implements an unresolved interface, then IA, then IB; IA and IB
      both declare `M`. */
  const Forest: Graph := Graph(map[
    "IA" := TypeDef(None, [], [M]),
    "IB" := TypeDef(None, [], [M]),
    "T" := TypeDef(None, ["IX", "IA", "IB"], [M])])

  /** The unresolved interface is passed over, and the earlier of the two
      declaring interfaces wins. */
  lemma FirstDeclaredInterfaceWins()
    ensures Acyclic(Forest)
    ensures BaseMethodInInterfaceHierarchy(Forest, "T", M) == Some(MethodId("IA", 0))
  {
    assert Layered(Forest, map["IA" := 0, "IB" := 0, "T" := 1]);
    assert PreOrder(Forest, "IA") == [] by {
      assert PreOrderFrom(Forest, "IA", 0) == [];
    }
    assert PreOrderFrom(Forest, "T", 0) == ["IA"] + PreOrderFrom(Forest, "T", 2) by {
      assert Visit(Forest, "T", 0) == [];
      assert Visit(Forest, "T", 1) == ["IA"];
    }
    assert TryMatchMethod(Forest.types["IA"], M) == Some(0);
  }

  /** A virtual `N` of the class D that names `A.M` as an explicit
      override, although its name differs. */
  const Renamed: Graph := Graph(map[
    "A" := TypeDef(None, [], [M]),
    "D" := TypeDef(None, [], [MethodDef("N", true, Named("System.Void"), [], [MethodId("A", 0)])])])

  /** The explicit override is recorded with no name check. */
  lemma ExplicitOverrideIgnoresName()
    ensures Acyclic(Renamed)
    ensures Edge(MethodId("A", 0), MethodId("D", 0)) in Edges(ProcessAssembly(Renamed, Empty, ["D"]))
  {
    assert Layered(Renamed, map["A" := 0, "D" := 0]);
    ExplicitOverridesRecorded(Renamed, Empty, ["D"], MethodId("D", 0), 0);
  }

  /** The open generic class ``G`1`` declares a virtual `Add(T)`; D derives
      from an instantiation of it (its base reference names ``G`1``) and
      declares a new virtual `Add(string)`. */
  const GAdd: MethodDef := MethodDef("Add", true, Named("System.Void"), [GenericParam("T")], [])
  const DAdd: MethodDef := MethodDef("Add", true, Named("System.Void"), [Named("System.String")], [])
  const Generic: Graph := Graph(map[
    "G`1" := TypeDef(None, [], [GAdd]),
    "D" := TypeDef(Some("G`1"), [], [DAdd])])

  /** The wildcard ties `D.Add(string)` to the slot of `Add(T)`, whatever
      type argument D's base actually supplies for `T`. */
  lemma WildcardCrossMatch()
    ensures Acyclic(Generic)
    ensures BaseMethodInTypeHierarchy(Generic, "D", DAdd) == Some(MethodId("G`1", 0))
  {
    assert Layered(Generic, map["G`1" := 0, "D" := 1]);
    assert GetBaseType(Generic, "D") == Some("G`1");
    assert Ancestors(Generic, "D") == ["G`1"] by {
      assert GetBaseType(Generic, "G`1").None?;
    }
    assert MethodMatch(GAdd, DAdd);
    assert TryMatchMethod(Generic.types["G`1"], DAdd) == Some(0);
  }
}
