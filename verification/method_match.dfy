/** Whether a candidate method occupies the same dispatch slot as a given
    method `m`, and the search for such a candidate among a type's methods. */
module MethodMatching {
  import opened Options
  import opened TypeRefs
  import opened TypeGraph

  /** Same dispatch slot: the candidate is virtual, the names are equal, the
      return types match, the parameter counts agree and the parameters match
      in order. The candidate is always the left-hand, wildcard side. */
  predicate MethodMatch(candidate: MethodDef, m: MethodDef)
    ensures MethodMatch(candidate, m) <==>
      && candidate.isVirtual
      && candidate.name == m.name
      && TypeMatch(candidate.returnType, m.returnType)
      && |candidate.params| == |m.params|
      && forall i :: 0 <= i < |candidate.params| ==> TypeMatch(candidate.params[i], m.params[i])
  {
    if !candidate.isVirtual then false
    else if candidate.name != m.name then false
    else if !TypeMatch(candidate.returnType, m.returnType) then false
    else if |candidate.params| != |m.params| then false
    else ParamsMatchFrom(candidate, m, 0)
  }

  /** The parameter loop of `MethodMatch`, from position `i`. */
  predicate ParamsMatchFrom(candidate: MethodDef, m: MethodDef, i: nat)
    requires |candidate.params| == |m.params| && i <= |candidate.params|
    decreases |candidate.params| - i
    ensures ParamsMatchFrom(candidate, m, i) <==>
      forall k :: i <= k < |candidate.params| ==> TypeMatch(candidate.params[k], m.params[k])
  {
    if i == |candidate.params| then true
    else if !TypeMatch(candidate.params[i], m.params[i]) then false
    else ParamsMatchFrom(candidate, m, i + 1)
  }

  /** A non-virtual candidate never occupies a slot. */
  lemma NonVirtualNeverMatches(candidate: MethodDef, m: MethodDef)
    requires !candidate.isVirtual
    ensures !MethodMatch(candidate, m)
  {
  }

  /** Substitutes generic parameters throughout a list of parameter types. */
  function InstantiateAll(ts: seq<TypeRef>, sub: map<string, TypeRef>): (r: seq<TypeRef>)
    ensures |r| == |ts|
    ensures forall i :: 0 <= i < |ts| ==> r[i] == Instantiate(ts[i], sub)
  {
    seq(|ts|, i requires 0 <= i < |ts| => Instantiate(ts[i], sub))
  }

  /** A virtual method occupies the slot of every method of the same name
      whose signature instantiates its own (a method of `G<T>` taking `T` and
      a method taking `int`, say); with the empty substitution this says that
      a virtual method matches itself. */
  lemma {:induction false} MatchesInstantiatedSignature(candidate: MethodDef, m: MethodDef, sub: map<string, TypeRef>)
    requires candidate.isVirtual
    requires m.name == candidate.name
    requires m.returnType == Instantiate(candidate.returnType, sub)
    requires m.params == InstantiateAll(candidate.params, sub)
    ensures MethodMatch(candidate, m)
  {
    MatchesEveryInstantiation(candidate.returnType, sub);
    forall i | 0 <= i < |candidate.params|
      ensures TypeMatch(candidate.params[i], m.params[i])
    {
      MatchesEveryInstantiation(candidate.params[i], sub);
    }
  }

  /** The first of a type's methods, in declaration order, that occupies the
      slot of `m`; none if no method does (or the type has none). */
  function TryMatchMethod(td: TypeDef, m: MethodDef): (r: Option<nat>)
    ensures r.Some? ==>
      && r.value < |td.methods|
      && MethodMatch(td.methods[r.value], m)
      && forall j :: 0 <= j < r.value ==> !MethodMatch(td.methods[j], m)
    ensures r.None? <==> forall j :: 0 <= j < |td.methods| ==> !MethodMatch(td.methods[j], m)
  {
    if |td.methods| == 0 then None
    else FirstMatchFrom(td.methods, m, 0)
  }

  /** The loop of `TryMatchMethod`, from position `i`. */
  function FirstMatchFrom(candidates: seq<MethodDef>, m: MethodDef, i: nat): (r: Option<nat>)
    requires i <= |candidates|
    decreases |candidates| - i
    ensures r.Some? ==>
      && i <= r.value < |candidates|
      && MethodMatch(candidates[r.value], m)
      && forall j :: i <= j < r.value ==> !MethodMatch(candidates[j], m)
    ensures r.None? <==> forall j :: i <= j < |candidates| ==> !MethodMatch(candidates[j], m)
  {
    if i == |candidates| then None
    else if MethodMatch(candidates[i], m) then Some(i)
    else FirstMatchFrom(candidates, m, i + 1)
  }
}
