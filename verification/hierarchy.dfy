/** The two searches for the method a virtual method overrides: up the
    base-class chain, and depth-first through the declaring type's interface
    forest. Each is specified as "the first hit" along an independently
    defined order of types: the ancestor chain and the interface pre-order. */
module Hierarchy {
  import opened Options
  import opened TypeGraph
  import opened MethodMatching

  /** The resolved base type of `t`: none when `t` has no base reference or
      the reference does not resolve. */
  function GetBaseType(g: Graph, t: TypeId): (r: Option<TypeId>)
    requires t in g.types
    ensures r.Some? ==> r.value in g.types && g.types[t].baseType == r
    ensures r.None? <==> g.types[t].baseType.None? || g.types[t].baseType.value !in g.types
    ensures Acyclic(g) && r.Some? ==> Rank(g)[r.value] < Rank(g)[t]
  {
    match g.types[t].baseType
    case None => None
    case Some(b) => if b in g.types then Some(b) else None
  }

  // ---------------------------------------------------------------------
  // First hit along an order of types

  /** Whether the type at position `j` of `xs` is the first one in `xs` that
      declares a method in the slot of `m`. */
  ghost predicate FirstHitAt(g: Graph, xs: seq<TypeId>, m: MethodDef, j: int)
    requires forall x :: x in xs ==> x in g.types
  {
    && 0 <= j < |xs|
    && TryMatchMethod(g.types[xs[j]], m).Some?
    && forall i :: 0 <= i < j ==> TryMatchMethod(g.types[xs[i]], m).None?
  }

  /** Whether `v` is the method found at position `j` of `xs`, and `j` is
      the first position with a hit. */
  ghost predicate HitAt(g: Graph, xs: seq<TypeId>, m: MethodDef, j: int, v: MethodId)
    requires forall x :: x in xs ==> x in g.types
  {
    FirstHitAt(g, xs, m, j) && v == MethodId(xs[j], TryMatchMethod(g.types[xs[j]], m).value)
  }

  /** The matching method of the first type along `xs` that has one. */
  function FirstHit(g: Graph, xs: seq<TypeId>, m: MethodDef): (r: Option<MethodId>)
    requires forall x :: x in xs ==> x in g.types
    ensures r.None? <==> forall j :: 0 <= j < |xs| ==> TryMatchMethod(g.types[xs[j]], m).None?
    ensures r.Some? ==> exists j :: HitAt(g, xs, m, j, r.value)
  {
    if |xs| == 0 then None
    else
      match TryMatchMethod(g.types[xs[0]], m)
      case Some(k) =>
        assert HitAt(g, xs, m, 0, MethodId(xs[0], k));
        Some(MethodId(xs[0], k))
      case None =>
        var r := FirstHit(g, xs[1..], m);
        assert r.Some? ==> exists j :: HitAt(g, xs, m, j, r.value) by {
          if r.Some? {
            var j :| HitAt(g, xs[1..], m, j, r.value);
            HitAfterMiss(g, xs, m, j, r.value);
          }
        }
        r
  }

  /** A hit in the tail of `xs` is a hit in `xs` when the head misses. */
  lemma HitAfterMiss(g: Graph, xs: seq<TypeId>, m: MethodDef, j: int, v: MethodId)
    requires forall x :: x in xs ==> x in g.types
    requires |xs| > 0 && TryMatchMethod(g.types[xs[0]], m).None?
    requires HitAt(g, xs[1..], m, j, v)
    ensures HitAt(g, xs, m, j + 1, v)
  {
    assert xs[1..][j] == xs[j + 1];
    forall i | 0 <= i < j + 1
      ensures TryMatchMethod(g.types[xs[i]], m).None?
    {
      if i > 0 {
        assert xs[1..][i - 1] == xs[i];
      }
    }
  }

  /** The first hit along a concatenation is the first hit along the first
      part, if it has one, and otherwise the first hit along the second. */
  lemma {:induction false} FirstHitAppend(g: Graph, xs: seq<TypeId>, ys: seq<TypeId>, m: MethodDef)
    requires forall x :: x in xs ==> x in g.types
    requires forall y :: y in ys ==> y in g.types
    ensures FirstHit(g, xs + ys, m) ==
      if FirstHit(g, xs, m).Some? then FirstHit(g, xs, m) else FirstHit(g, ys, m)
  {
    if |xs| == 0 {
      assert xs + ys == ys;
    } else {
      assert (xs + ys)[0] == xs[0];
      assert (xs + ys)[1..] == xs[1..] + ys;
      FirstHitAppend(g, xs[1..], ys, m);
    }
  }

  // ---------------------------------------------------------------------
  // The class chain

  /** The chain of resolved ancestors starting at `cur`, nearest first; it
      ends at the first type whose base is absent or unresolved. */
  function AncestorsFrom(g: Graph, cur: Option<TypeId>): (r: seq<TypeId>)
    requires Acyclic(g) && (cur.Some? ==> cur.value in g.types)
    decreases if cur.Some? then Rank(g)[cur.value] + 1 else 0
    ensures cur.None? <==> r == []
    ensures cur.Some? ==> r[0] == cur.value
    ensures forall x :: x in r ==> x in g.types && Rank(g)[x] <= Rank(g)[cur.value]
    ensures forall i :: 0 <= i < |r| - 1 ==> GetBaseType(g, r[i]) == Some(r[i + 1])
    ensures |r| > 0 ==> GetBaseType(g, r[|r| - 1]).None?
  {
    match cur
    case None => []
    case Some(b) => [b] + AncestorsFrom(g, GetBaseType(g, b))
  }

  /** The ancestors of `t`: its base, the base's base, and so on. */
  function Ancestors(g: Graph, t: TypeId): (r: seq<TypeId>)
    requires Acyclic(g) && t in g.types
    ensures forall x :: x in r ==> x in g.types && Rank(g)[x] < Rank(g)[t]
    ensures GetBaseType(g, t).None? <==> r == []
    ensures GetBaseType(g, t).Some? ==> r[0] == GetBaseType(g, t).value
    ensures forall i :: 0 <= i < |r| - 1 ==> GetBaseType(g, r[i]) == Some(r[i + 1])
    ensures |r| > 0 ==> GetBaseType(g, r[|r| - 1]).None?
  {
    AncestorsFrom(g, GetBaseType(g, t))
  }

  /** The loop of the class-chain search, from the type `cur`. */
  function BaseMethodFrom(g: Graph, cur: Option<TypeId>, m: MethodDef): (r: Option<MethodId>)
    requires Acyclic(g) && (cur.Some? ==> cur.value in g.types)
    decreases if cur.Some? then Rank(g)[cur.value] + 1 else 0
    ensures r == FirstHit(g, AncestorsFrom(g, cur), m)
  {
    match cur
    case None => None
    case Some(b) =>
      var chain := AncestorsFrom(g, cur);
      assert chain[0] == b && chain[1..] == AncestorsFrom(g, GetBaseType(g, b));
      match TryMatchMethod(g.types[b], m)
      case Some(k) => Some(MethodId(b, k))
      case None => BaseMethodFrom(g, GetBaseType(g, b), m)
  }

  /** The class-chain search for the method that `m`, declared on `t`,
      overrides: the first match along the ancestors of `t`. */
  function BaseMethodInTypeHierarchy(g: Graph, t: TypeId, m: MethodDef): (r: Option<MethodId>)
    requires Acyclic(g) && t in g.types
    ensures r == FirstHit(g, Ancestors(g, t), m)
  {
    BaseMethodFrom(g, GetBaseType(g, t), m)
  }

  // ---------------------------------------------------------------------
  // The interface forest

  /** The resolvable interfaces reachable from `t` through interface lists
      only, in depth-first pre-order: each interface before its own
      interfaces, siblings in declaration order, unresolved ones dropped. */
  function PreOrder(g: Graph, t: TypeId): (r: seq<TypeId>)
    requires Acyclic(g) && t in g.types
    decreases Rank(g)[t], 1
    ensures forall x :: x in r ==> x in g.types
  {
    PreOrderFrom(g, t, 0)
  }

  /** The pre-order of the interfaces of `t` from position `i` on. */
  function PreOrderFrom(g: Graph, t: TypeId, i: nat): (r: seq<TypeId>)
    requires Acyclic(g) && t in g.types && i <= |g.types[t].interfaces|
    decreases Rank(g)[t], 0, |g.types[t].interfaces| - i, 1
    ensures forall x :: x in r ==> x in g.types
  {
    if i == |g.types[t].interfaces| then []
    else Visit(g, t, i) + PreOrderFrom(g, t, i + 1)
  }

  /** What the interface at position `i` of `t` contributes to the
      pre-order: nothing if it is unresolved, else itself followed by the
      pre-order of its own interfaces. */
  function Visit(g: Graph, t: TypeId, i: nat): (r: seq<TypeId>)
    requires Acyclic(g) && t in g.types && i < |g.types[t].interfaces|
    decreases Rank(g)[t], 0, |g.types[t].interfaces| - i, 0
    ensures forall x :: x in r ==> x in g.types
  {
    var u := g.types[t].interfaces[i];
    if u in g.types then [u] + PreOrder(g, u) else []
  }

  /** Everything in the interface forest of `t` ranks below `t`: in
      particular `t` is not in its own forest. */
  lemma {:induction false} PreOrderBelow(g: Graph, t: TypeId)
    requires Acyclic(g) && t in g.types
    decreases Rank(g)[t], 1
    ensures forall x :: x in PreOrder(g, t) ==> Rank(g)[x] < Rank(g)[t]
  {
    PreOrderFromBelow(g, t, 0);
  }

  lemma {:induction false} PreOrderFromBelow(g: Graph, t: TypeId, i: nat)
    requires Acyclic(g) && t in g.types && i <= |g.types[t].interfaces|
    decreases Rank(g)[t], 0, |g.types[t].interfaces| - i
    ensures forall x :: x in PreOrderFrom(g, t, i) ==> Rank(g)[x] < Rank(g)[t]
  {
    var ifaces := g.types[t].interfaces;
    if i < |ifaces| {
      var u := ifaces[i];
      PreOrderFromBelow(g, t, i + 1);
      if u in g.types {
        PreOrderBelow(g, u);
      }
    }
  }

  /** The interface search for the method that `m` overrides, starting at
      the interfaces of `t` (its own list, never those of its base types). */
  function BaseMethodInInterfaceHierarchy(g: Graph, t: TypeId, m: MethodDef): (r: Option<MethodId>)
    requires Acyclic(g) && t in g.types
    decreases Rank(g)[t], 1
    ensures r == FirstHit(g, PreOrder(g, t), m)
  {
    if |g.types[t].interfaces| == 0 then None
    else InterfacesFrom(g, t, m, 0)
  }

  /** The loop over the interfaces of `t`, from position `i`: an unresolved
      interface is skipped; a resolved one is searched itself, then its own
      interfaces; the first hit ends the whole search. */
  function InterfacesFrom(g: Graph, t: TypeId, m: MethodDef, i: nat): (r: Option<MethodId>)
    requires Acyclic(g) && t in g.types && i <= |g.types[t].interfaces|
    decreases Rank(g)[t], 0, |g.types[t].interfaces| - i
    ensures r == FirstHit(g, PreOrderFrom(g, t, i), m)
  {
    var ifaces := g.types[t].interfaces;
    if i == |ifaces| then None
    else
      var u := ifaces[i];
      if u !in g.types then
        assert Visit(g, t, i) == [];
        assert PreOrderFrom(g, t, i) == PreOrderFrom(g, t, i + 1);
        InterfacesFrom(g, t, m, i + 1)
      else
        match TryMatchMethod(g.types[u], m)
        case Some(k) =>
          PreOrderStep(g, t, i, m);
          Some(MethodId(u, k))
        case None =>
          match BaseMethodInInterfaceHierarchy(g, u, m)
          case Some(found) =>
            PreOrderStep(g, t, i, m);
            Some(found)
          case None =>
            var r := InterfacesFrom(g, t, m, i + 1);
            PreOrderStep(g, t, i, m);
            r
  }

  /** The first hit along the pre-order from position `i`, when the interface
      at `i` resolves: that interface, else its own forest, else the rest. */
  lemma PreOrderStep(g: Graph, t: TypeId, i: nat, m: MethodDef)
    requires Acyclic(g) && t in g.types && i < |g.types[t].interfaces|
    requires g.types[t].interfaces[i] in g.types
    ensures var u := g.types[t].interfaces[i];
      FirstHit(g, PreOrderFrom(g, t, i), m) ==
        match TryMatchMethod(g.types[u], m)
        case Some(k) => Some(MethodId(u, k))
        case None =>
          if FirstHit(g, PreOrder(g, u), m).Some? then FirstHit(g, PreOrder(g, u), m)
          else FirstHit(g, PreOrderFrom(g, t, i + 1), m)
  {
    var u := g.types[t].interfaces[i];
    var sub := PreOrder(g, u);
    var rest := PreOrderFrom(g, t, i + 1);
    assert Visit(g, t, i) == [u] + sub;
    assert PreOrderFrom(g, t, i) == [u] + (sub + rest);
    FirstHitAppend(g, [u], sub + rest, m);
    FirstHitAppend(g, sub, rest, m);
  }

  // ---------------------------------------------------------------------
  // What the two searches find, in terms of the slot match

  /** No method of the type `x` occupies the slot of `m`. */
  ghost predicate NoMatchIn(g: Graph, x: TypeId, m: MethodDef)
    requires x in g.types
  {
    forall k :: 0 <= k < |g.types[x].methods| ==> !MethodMatch(g.types[x].methods[k], m)
  }

  /** `r` is the first method, in declaration order, of the type `xs[j]`
      that occupies the slot of `m`, and no type before `xs[j]` in `xs` has
      such a method. */
  ghost predicate FirstMatchAlong(g: Graph, xs: seq<TypeId>, m: MethodDef, j: int, r: MethodId)
    requires forall x :: x in xs ==> x in g.types
  {
    && 0 <= j < |xs|
    && r.owner == xs[j]
    && r.index < |g.types[xs[j]].methods|
    && MethodMatch(g.types[xs[j]].methods[r.index], m)
    && (forall k :: 0 <= k < r.index ==> !MethodMatch(g.types[xs[j]].methods[k], m))
    && (forall i :: 0 <= i < j ==> NoMatchIn(g, xs[i], m))
  }

  lemma FirstHitIsFirstMatch(g: Graph, xs: seq<TypeId>, m: MethodDef)
    requires forall x :: x in xs ==> x in g.types
    ensures FirstHit(g, xs, m).None? <==> forall j :: 0 <= j < |xs| ==> NoMatchIn(g, xs[j], m)
    ensures FirstHit(g, xs, m).Some? ==> exists j :: FirstMatchAlong(g, xs, m, j, FirstHit(g, xs, m).value)
  {
    var r := FirstHit(g, xs, m);
    if r.Some? {
      var j :| HitAt(g, xs, m, j, r.value);
      assert FirstMatchAlong(g, xs, m, j, r.value);
    }
  }

  /** The class-chain search returns the first matching method of the
      nearest ancestor that has one, never a method of `t` itself, and
      nothing exactly when no ancestor has a matching method. */
  lemma ClassChainSearchIsNearest(g: Graph, t: TypeId, m: MethodDef)
    requires Acyclic(g) && t in g.types
    ensures var r := BaseMethodInTypeHierarchy(g, t, m);
      && (r.None? <==> forall j :: 0 <= j < |Ancestors(g, t)| ==> NoMatchIn(g, Ancestors(g, t)[j], m))
      && (r.Some? ==> r.value.owner != t && exists j :: FirstMatchAlong(g, Ancestors(g, t), m, j, r.value))
  {
    FirstHitIsFirstMatch(g, Ancestors(g, t), m);
  }

  /** The interface search returns the first matching method of the first
      interface, in pre-order, that has one, never a method of `t` itself,
      and nothing exactly when no interface of the forest has one. */
  lemma InterfaceSearchIsFirstInPreOrder(g: Graph, t: TypeId, m: MethodDef)
    requires Acyclic(g) && t in g.types
    ensures var r := BaseMethodInInterfaceHierarchy(g, t, m);
      && (r.None? <==> forall j :: 0 <= j < |PreOrder(g, t)| ==> NoMatchIn(g, PreOrder(g, t)[j], m))
      && (r.Some? ==> r.value.owner != t && exists j :: FirstMatchAlong(g, PreOrder(g, t), m, j, r.value))
  {
    FirstHitIsFirstMatch(g, PreOrder(g, t), m);
    PreOrderBelow(g, t);
  }

  /** Declaration order decides between interfaces: if the interfaces of
      `t` before position `i` (and their own forests) have no matching
      method, and the interface at `i` resolves and has one, the search
      returns that interface's first matching method, whatever comes later. */
  lemma EarlierInterfaceWins(g: Graph, t: TypeId, m: MethodDef, i: nat)
    requires Acyclic(g) && t in g.types && i < |g.types[t].interfaces|
    requires forall k :: 0 <= k < i ==> Barren(g, g.types[t].interfaces[k], m)
    requires g.types[t].interfaces[i] in g.types
    requires TryMatchMethod(g.types[g.types[t].interfaces[i]], m).Some?
    ensures BaseMethodInInterfaceHierarchy(g, t, m) ==
      Some(MethodId(g.types[t].interfaces[i], TryMatchMethod(g.types[g.types[t].interfaces[i]], m).value))
  {
    var u := g.types[t].interfaces[i];
    var pre := PreOrderFrom(g, t, 0);
    var d := |pre| - |PreOrderFrom(g, t, i)|;
    BarrenPrefix(g, t, m, 0, i);
    PreOrderSuffix(g, t, 0, i);
    assert PreOrderFrom(g, t, i) == Visit(g, t, i) + PreOrderFrom(g, t, i + 1);
    assert Visit(g, t, i)[0] == u;
    assert pre[d] == u;
    FirstHitIsFirstMatch(g, pre, m);
    var r := FirstHit(g, pre, m);
    assert !NoMatchIn(g, u, m);
    var j :| FirstMatchAlong(g, pre, m, j, r.value);
    assert j == d;
  }

  /** The interface reference `u` is unresolved, or neither it nor anything
      in its own interface forest has a method in the slot of `m`. */
  ghost predicate Barren(g: Graph, u: TypeId, m: MethodDef)
    requires Acyclic(g)
  {
    u in g.types ==>
      && NoMatchIn(g, u, m)
      && forall x :: x in PreOrder(g, u) ==> NoMatchIn(g, x, m)
  }

  /** The pre-order from position `i` ends the pre-order from `k <= i`. */
  lemma {:induction false} PreOrderSuffix(g: Graph, t: TypeId, k: nat, i: nat)
    requires Acyclic(g) && t in g.types && k <= i <= |g.types[t].interfaces|
    decreases i - k
    ensures |PreOrderFrom(g, t, i)| <= |PreOrderFrom(g, t, k)|
    ensures PreOrderFrom(g, t, k)[|PreOrderFrom(g, t, k)| - |PreOrderFrom(g, t, i)|..] == PreOrderFrom(g, t, i)
  {
    if k < i {
      PreOrderSuffix(g, t, k + 1, i);
      SuffixOfConcat(Visit(g, t, k), PreOrderFrom(g, t, k + 1), |PreOrderFrom(g, t, i)|);
    }
  }

  lemma SuffixOfConcat<T>(a: seq<T>, b: seq<T>, n: nat)
    requires n <= |b|
    ensures (a + b)[|a + b| - n..] == b[|b| - n..]
  {
  }

  lemma ConcatIndex<T>(a: seq<T>, b: seq<T>, j: int)
    requires |a| <= j < |a| + |b|
    ensures (a + b)[j] == b[j - |a|]
  {
  }

  /** When the interfaces from `k` to `i` are barren, so is everything the
      pre-order from `k` visits before it reaches the pre-order from `i`. */
  lemma {:induction false} BarrenPrefix(g: Graph, t: TypeId, m: MethodDef, k: nat, i: nat)
    requires Acyclic(g) && t in g.types && k <= i <= |g.types[t].interfaces|
    requires forall k' :: k <= k' < i ==> Barren(g, g.types[t].interfaces[k'], m)
    decreases i - k
    ensures |PreOrderFrom(g, t, i)| <= |PreOrderFrom(g, t, k)|
    ensures forall j :: 0 <= j < |PreOrderFrom(g, t, k)| - |PreOrderFrom(g, t, i)| ==>
      NoMatchIn(g, PreOrderFrom(g, t, k)[j], m)
  {
    PreOrderSuffix(g, t, k, i);
    if k < i {
      BarrenPrefix(g, t, m, k + 1, i);
      var u := g.types[t].interfaces[k];
      var chunk := Visit(g, t, k);
      var later := PreOrderFrom(g, t, k + 1);
      var whole := PreOrderFrom(g, t, k);
      assert whole == chunk + later;
      var n := |PreOrderFrom(g, t, i)|;
      assert |later| - n >= 0;
      assert forall j' :: 0 <= j' < |later| - n ==> NoMatchIn(g, later[j'], m);
      assert Barren(g, u, m);
      forall j | 0 <= j < |whole| - n ensures NoMatchIn(g, whole[j], m) {
        if j < |chunk| {
          assert whole[j] == chunk[j];
          if j > 0 {
            assert chunk[j] in PreOrder(g, u);
          }
        } else {
          var j' := j - |chunk|;
          assert 0 <= j' < |later| - n;
          ConcatIndex(chunk, later, j);
        }
      }
    }
  }

  // ---------------------------------------------------------------------
  // The two searches read disjoint parts of the graph

  /** Two graphs with the same types, base references and methods. */
  ghost predicate SameClassView(g1: Graph, g2: Graph) {
    && g1.types.Keys == g2.types.Keys
    && forall t :: t in g1.types ==>
         g1.types[t].baseType == g2.types[t].baseType && g1.types[t].methods == g2.types[t].methods
  }

  /** Two graphs with the same types, interface lists and methods. */
  ghost predicate SameInterfaceView(g1: Graph, g2: Graph) {
    && g1.types.Keys == g2.types.Keys
    && forall t :: t in g1.types ==>
         g1.types[t].interfaces == g2.types[t].interfaces && g1.types[t].methods == g2.types[t].methods
  }

  lemma {:induction false} FirstHitReadsOnlyMethods(g1: Graph, g2: Graph, xs: seq<TypeId>, m: MethodDef)
    requires forall x :: x in xs ==> x in g1.types && x in g2.types && g1.types[x].methods == g2.types[x].methods
    ensures FirstHit(g1, xs, m) == FirstHit(g2, xs, m)
  {
    if |xs| > 0 {
      FirstHitReadsOnlyMethods(g1, g2, xs[1..], m);
    }
  }

  lemma {:induction false} AncestorsReadOnlyBases(g1: Graph, g2: Graph, cur: Option<TypeId>)
    requires Acyclic(g1) && Acyclic(g2) && SameClassView(g1, g2)
    requires cur.Some? ==> cur.value in g1.types
    decreases if cur.Some? then Rank(g1)[cur.value] + 1 else 0
    ensures AncestorsFrom(g1, cur) == AncestorsFrom(g2, cur)
  {
    if cur.Some? {
      assert GetBaseType(g1, cur.value) == GetBaseType(g2, cur.value);
      AncestorsReadOnlyBases(g1, g2, GetBaseType(g1, cur.value));
    }
  }

  /** The class-chain search never reads an interface list: graphs that
      differ only in interfaces give the same answer. */
  lemma ClassSearchIgnoresInterfaces(g1: Graph, g2: Graph, t: TypeId, m: MethodDef)
    requires Acyclic(g1) && Acyclic(g2) && SameClassView(g1, g2) && t in g1.types
    ensures BaseMethodInTypeHierarchy(g1, t, m) == BaseMethodInTypeHierarchy(g2, t, m)
  {
    assert GetBaseType(g1, t) == GetBaseType(g2, t);
    AncestorsReadOnlyBases(g1, g2, GetBaseType(g1, t));
    FirstHitReadsOnlyMethods(g1, g2, Ancestors(g1, t), m);
  }

  lemma {:induction false} PreOrderReadsOnlyInterfaces(g1: Graph, g2: Graph, t: TypeId)
    requires Acyclic(g1) && Acyclic(g2) && SameInterfaceView(g1, g2) && t in g1.types
    decreases Rank(g1)[t], 1
    ensures PreOrder(g1, t) == PreOrder(g2, t)
  {
    PreOrderFromReadsOnlyInterfaces(g1, g2, t, 0);
  }

  lemma {:induction false} PreOrderFromReadsOnlyInterfaces(g1: Graph, g2: Graph, t: TypeId, i: nat)
    requires Acyclic(g1) && Acyclic(g2) && SameInterfaceView(g1, g2) && t in g1.types
    requires i <= |g1.types[t].interfaces|
    decreases Rank(g1)[t], 0, |g1.types[t].interfaces| - i
    ensures PreOrderFrom(g1, t, i) == PreOrderFrom(g2, t, i)
  {
    var ifaces := g1.types[t].interfaces;
    if i < |ifaces| {
      if ifaces[i] in g1.types {
        PreOrderReadsOnlyInterfaces(g1, g2, ifaces[i]);
      }
      PreOrderFromReadsOnlyInterfaces(g1, g2, t, i + 1);
    }
  }

  /** The interface search never reads a base-type reference: in particular
      it never reaches the interfaces of a base class. */
  lemma InterfaceSearchIgnoresBaseTypes(g1: Graph, g2: Graph, t: TypeId, m: MethodDef)
    requires Acyclic(g1) && Acyclic(g2) && SameInterfaceView(g1, g2) && t in g1.types
    ensures BaseMethodInInterfaceHierarchy(g1, t, m) == BaseMethodInInterfaceHierarchy(g2, t, m)
  {
    PreOrderReadsOnlyInterfaces(g1, g2, t);
    FirstHitReadsOnlyMethods(g1, g2, PreOrder(g1, t), m);
  }
}
