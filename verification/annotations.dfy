/** The relationship store the override mapping writes into: for every
    method, the methods it overrides ("base methods") and the methods that
    override it. Only its two insertions and two queries are modelled; as
    sets, the indexes hold each relationship at most once. */
module Annotations {
  import opened TypeGraph

  /** One recorded relationship: `overrider` overrides `base`. */
  datatype Edge = Edge(base: MethodId, overrider: MethodId)

  datatype Store = Store(
    baseMethods: map<MethodId, set<MethodId>>,
    overrides: map<MethodId, set<MethodId>>)

  const Empty: Store := Store(map[], map[])

  function Lookup(index: map<MethodId, set<MethodId>>, key: MethodId): set<MethodId> {
    if key in index then index[key] else {}
  }

  /** Adds `value` to the set kept under `key`, leaving every other key alone. */
  function Insert(index: map<MethodId, set<MethodId>>, key: MethodId, value: MethodId): (r: map<MethodId, set<MethodId>>)
    ensures r.Keys == index.Keys + {key}
    ensures Lookup(r, key) == Lookup(index, key) + {value}
    ensures forall k :: k != key ==> Lookup(r, k) == Lookup(index, k)
    ensures value in Lookup(index, key) ==> r == index
  {
    var r := index[key := Lookup(index, key) + {value}];
    assert value in Lookup(index, key) ==> r == index by {
      if value in Lookup(index, key) {
        assert Lookup(index, key) + {value} == index[key];
      }
    }
    r
  }

  /** The methods `m` overrides. */
  function BasesOf(s: Store, m: MethodId): set<MethodId> {
    Lookup(s.baseMethods, m)
  }

  /** The methods that override `m`. */
  function OverridesOf(s: Store, m: MethodId): set<MethodId> {
    Lookup(s.overrides, m)
  }

  function AddBaseMethod(s: Store, overrider: MethodId, base: MethodId): Store {
    s.(baseMethods := Insert(s.baseMethods, overrider, base))
  }

  function AddOverride(s: Store, base: MethodId, overrider: MethodId): Store {
    s.(overrides := Insert(s.overrides, base, overrider))
  }

  /** The relationships the store holds, read off the base-to-override index. */
  function Edges(s: Store): set<Edge> {
    set b, o | b in s.overrides && o in s.overrides[b] :: Edge(b, o)
  }

  /** The two indexes are inverses of each other. */
  predicate Consistent(s: Store) {
    && (forall b, o :: b in s.overrides && o in s.overrides[b] ==> b in BasesOf(s, o))
    && (forall o, b :: o in s.baseMethods && b in s.baseMethods[o] ==> o in OverridesOf(s, b))
  }

  /** Either index answers the same question the other way round. */
  lemma QueriesAreInverse(s: Store, b: MethodId, o: MethodId)
    requires Consistent(s)
    ensures o in OverridesOf(s, b) <==> b in BasesOf(s, o)
    ensures Edge(b, o) in Edges(s) <==> o in OverridesOf(s, b)
  {
  }

  /** Records that `overrider` overrides `base`, in both indexes. */
  function AnnotateMethods(s: Store, base: MethodId, overrider: MethodId): (r: Store)
    ensures Edges(r) == Edges(s) + {Edge(base, overrider)}
    ensures Consistent(s) ==> Consistent(r)
    ensures Consistent(s) && Edge(base, overrider) in Edges(s) ==> r == s
  {
    var r := AddOverride(AddBaseMethod(s, overrider, base), base, overrider);
    assert Edges(r) == Edges(s) + {Edge(base, overrider)} by {
      forall e | e in Edges(r) ensures e in Edges(s) + {Edge(base, overrider)} {
        assert e.overrider in OverridesOf(r, e.base);
      }
      forall e | e in Edges(s) + {Edge(base, overrider)} ensures e in Edges(r) {
        assert e.overrider in OverridesOf(r, e.base);
      }
    }
    assert Consistent(s) ==> Consistent(r) by {
      if Consistent(s) {
        forall b, o | b in r.overrides && o in r.overrides[b] ensures b in BasesOf(r, o) {
          assert o in OverridesOf(r, b);
          if b != base || o != overrider {
            assert o in OverridesOf(s, b);
            assert b in BasesOf(s, o);
          }
        }
        forall o, b | o in r.baseMethods && b in r.baseMethods[o] ensures o in OverridesOf(r, b) {
          assert b in BasesOf(r, o);
          if b != base || o != overrider {
            assert b in BasesOf(s, o);
            assert o in OverridesOf(s, b);
          }
        }
      }
    }
    assert Consistent(s) && Edge(base, overrider) in Edges(s) ==> r == s by {
      if Consistent(s) && Edge(base, overrider) in Edges(s) {
        assert overrider in OverridesOf(s, base);
        assert base in BasesOf(s, overrider);
      }
    }
    r
  }
}
