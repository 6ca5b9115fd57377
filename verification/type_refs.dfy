/** Type references as the linker sees them in method signatures, and the
    structural matcher that decides whether two of them denote the same type
    for the purpose of virtual dispatch. */
module TypeRefs {

  /** The specification kinds that the matcher compares by element type
      alone: arrays, pointers, by-reference, pinned and sentinel types, and
      function pointers. */
  datatype SpecKind =
    | ArrayKind
    | PointerKind
    | ByReferenceKind
    | PinnedKind
    | SentinelKind
    | FunctionPointerKind

  /** A type reference. `Named` is a plain (non-specification) reference or
      definition, identified by its full name. `GenericParam` is a generic
      parameter; it is not a specification, and its full name is its name.
      The other three are type specifications: a generic instantiation, a
      modifier-wrapped type (optional or required modifier), and every other
      specification kind, whose `detail` stands for whatever the specification
      carries besides its element type (an array's rank and bounds, or the
      rest of a function pointer's signature). */
  datatype TypeRef =
    | Named(fullName: string)
    | GenericParam(name: string)
    | GenericInstance(element: TypeRef, args: seq<TypeRef>)
    | Modified(required: bool, modifier: TypeRef, element: TypeRef)
    | Other(kind: SpecKind, detail: string, element: TypeRef)
  {
    predicate IsSpec() {
      GenericInstance? || Modified? || Other?
    }

    /** The full name of a reference that is not a specification. */
    function FullName(): string
      requires !IsSpec()
    {
      if Named? then fullName else name
    }

    /** The run-time class of the reference object: two specifications can
        only match when their classes agree. */
    function Class(): RefClass {
      match this
      case Named(_) => NamedClass
      case GenericParam(_) => GenericParamClass
      case GenericInstance(_, _) => GenericInstanceClass
      case Modified(req, _, _) => ModifierClass(req)
      case Other(k, _, _) => OtherClass(k)
    }
  }

  datatype RefClass =
    | NamedClass
    | GenericParamClass
    | GenericInstanceClass
    | ModifierClass(required: bool)
    | OtherClass(kind: SpecKind)

  /** Structural match of `a` (the candidate's side) against `b`. A generic
      parameter on the left matches anything; specifications must be of the
      same class and are compared component-wise; everything else is compared
      by full name. */
  predicate TypeMatch(a: TypeRef, b: TypeRef)
    decreases a, 3
  {
    if a.GenericParam? then true
    else if a.IsSpec() || b.IsSpec() then
      a.Class() == b.Class() && SpecMatch(a, b)
    else
      a.FullName() == b.FullName()
  }

  /** Dispatch on the specification kind of `a`; `b` has the same class. */
  predicate SpecMatch(a: TypeRef, b: TypeRef)
    requires a.IsSpec() && a.Class() == b.Class()
    decreases a, 2
  {
    if a.GenericInstance? then InstanceMatch(a, b)
    else if a.Modified? then ModifiedMatch(a, b)
    else TypeMatch(a.element, b.element)
  }

  predicate ModifiedMatch(a: TypeRef, b: TypeRef)
    requires a.Modified? && b.Modified?
    decreases a, 1
  {
    TypeMatch(a.modifier, b.modifier) && TypeMatch(a.element, b.element)
  }

  predicate InstanceMatch(a: TypeRef, b: TypeRef)
    requires a.GenericInstance? && b.GenericInstance?
    decreases a, 1
  {
    && TypeMatch(a.element, b.element)
    && |a.args| == |b.args|
    && (|a.args| == 0 || ArgsMatch(a, b, 0))
  }

  /** The argument loop of the generic-instance comparison, from position `i`. */
  predicate ArgsMatch(a: TypeRef, b: TypeRef, i: nat)
    requires a.GenericInstance? && b.GenericInstance?
    requires |a.args| == |b.args| && i <= |a.args|
    decreases a, 0, |a.args| - i
    ensures ArgsMatch(a, b, i) <==>
      forall k :: i <= k < |a.args| ==> TypeMatch(a.args[k], b.args[k])
  {
    i == |a.args| || (TypeMatch(a.args[i], b.args[i]) && ArgsMatch(a, b, i + 1))
  }

  // ---------------------------------------------------------------------
  // The individual matching rules

  /** A generic parameter on the left is a wildcard. */
  lemma WildcardOnLeft(a: TypeRef, b: TypeRef)
    requires a.GenericParam?
    ensures TypeMatch(a, b)
  {
  }

  /** ... but only on the left: a generic parameter on the right is an
      ordinary name, matched by a plain reference of that full name and by
      nothing else except a left-hand generic parameter. */
  lemma WildcardIsOneSided(a: TypeRef, n: string)
    requires !a.GenericParam?
    ensures TypeMatch(a, GenericParam(n)) <==> a == Named(n)
  {
  }

  /** When either side is a specification, the two sides must be of the same
      class; in particular a specification never matches a plain reference. */
  lemma SpecKindsMustAgree(a: TypeRef, b: TypeRef)
    requires !a.GenericParam?
    requires a.IsSpec() || b.IsSpec()
    requires a.Class() != b.Class()
    ensures !TypeMatch(a, b)
  {
  }

  /** Two generic instances match iff their element types match, they have
      equally many arguments, and the arguments match position by position;
      zero arguments on both sides is a match. */
  lemma GenericInstanceRule(a: TypeRef, b: TypeRef)
    requires a.GenericInstance? && b.GenericInstance?
    ensures TypeMatch(a, b) <==>
      && TypeMatch(a.element, b.element)
      && |a.args| == |b.args|
      && forall k :: 0 <= k < |a.args| ==> TypeMatch(a.args[k], b.args[k])
  {
    assert TypeMatch(a, b) <==> SpecMatch(a, b);
    assert SpecMatch(a, b) <==> InstanceMatch(a, b);
  }

  /** Modified types: same modifier class, matching modifier, matching element. */
  lemma ModifiedRule(a: TypeRef, b: TypeRef)
    requires a.Modified? && b.Modified?
    ensures TypeMatch(a, b) <==>
      a.required == b.required && TypeMatch(a.modifier, b.modifier) && TypeMatch(a.element, b.element)
  {
    if a.required == b.required {
      assert TypeMatch(a, b) <==> SpecMatch(a, b);
      assert SpecMatch(a, b) <==> ModifiedMatch(a, b);
    }
  }

  /** Every other specification kind is compared by its element alone: the
      `detail` is ignored, the kind is not. */
  lemma OtherRule(a: TypeRef, b: TypeRef)
    requires a.Other? && b.Other?
    ensures TypeMatch(a, b) <==> a.kind == b.kind && TypeMatch(a.element, b.element)
  {
  }

  /** Plain references are compared by exact full name. */
  lemma NamedRule(x: string, y: string)
    ensures TypeMatch(Named(x), Named(y)) <==> x == y
  {
  }

  // ---------------------------------------------------------------------
  // Global properties of the matcher

  /** Every reference matches itself. */
  lemma {:induction false} TypeMatchReflexive(a: TypeRef)
    ensures TypeMatch(a, a)
  {
    match a
    case Named(_) =>
    case GenericParam(_) =>
    case GenericInstance(e, args) =>
      TypeMatchReflexive(e);
      forall k | 0 <= k < |args|
        ensures TypeMatch(args[k], args[k])
      {
        TypeMatchReflexive(args[k]);
      }
      assert ArgsMatch(a, a, 0);
    case Modified(_, md, e) =>
      TypeMatchReflexive(md);
      TypeMatchReflexive(e);
    case Other(_, _, e) =>
      TypeMatchReflexive(e);
  }

  /** Substitutes generic parameters by the types `sub` assigns them
      (parameters without an entry stay as they are). */
  function Instantiate(t: TypeRef, sub: map<string, TypeRef>): TypeRef {
    match t
    case Named(_) => t
    case GenericParam(n) => if n in sub then sub[n] else t
    case GenericInstance(e, args) =>
      GenericInstance(Instantiate(e, sub), seq(|args|, k requires 0 <= k < |args| => Instantiate(args[k], sub)))
    case Modified(req, md, e) => Modified(req, Instantiate(md, sub), Instantiate(e, sub))
    case Other(kind, d, e) => Other(kind, d, Instantiate(e, sub))
  }

  /** The point of the wildcard: an open reference matches every
      instantiation of itself, whatever the parameters are bound to. */
  lemma {:induction false} MatchesEveryInstantiation(a: TypeRef, sub: map<string, TypeRef>)
    ensures TypeMatch(a, Instantiate(a, sub))
  {
    var b := Instantiate(a, sub);
    match a
    case Named(_) =>
    case GenericParam(_) =>
    case GenericInstance(e, args) =>
      MatchesEveryInstantiation(e, sub);
      forall k | 0 <= k < |args|
        ensures TypeMatch(args[k], b.args[k])
      {
        MatchesEveryInstantiation(args[k], sub);
      }
      assert |args| == 0 || ArgsMatch(a, b, 0);
    case Modified(_, md, e) =>
      MatchesEveryInstantiation(md, sub);
      MatchesEveryInstantiation(e, sub);
    case Other(_, _, e) =>
      MatchesEveryInstantiation(e, sub);
  }

  /** A reference with no generic parameter anywhere inside it. */
  predicate Closed(t: TypeRef) {
    match t
    case Named(_) => true
    case GenericParam(_) => false
    case GenericInstance(e, args) => Closed(e) && forall k :: 0 <= k < |args| ==> Closed(args[k])
    case Modified(_, md, e) => Closed(md) && Closed(e)
    case Other(_, _, e) => Closed(e)
  }

  /** The matcher's notion of sameness as a plain value: generic parameters
      read as names, and the detail of other specification kinds dropped. */
  function Erase(t: TypeRef): TypeRef {
    match t
    case Named(n) => Named(n)
    case GenericParam(n) => Named(n)
    case GenericInstance(e, args) =>
      GenericInstance(Erase(e), seq(|args|, k requires 0 <= k < |args| => Erase(args[k])))
    case Modified(req, md, e) => Modified(req, Erase(md), Erase(e))
    case Other(kind, _, e) => Other(kind, "", Erase(e))
  }

  /** An independent reading of the matcher: on a closed left-hand side it is
      exactly equality after erasure. */
  lemma {:induction false} ClosedMatchIsErasedEquality(a: TypeRef, b: TypeRef)
    requires Closed(a)
    ensures TypeMatch(a, b) <==> Erase(a) == Erase(b)
  {
    match a
    case Named(_) =>
    case GenericParam(_) =>
    case GenericInstance(e, args) =>
      if b.GenericInstance? {
        GenericInstanceRule(a, b);
        ClosedMatchIsErasedEquality(e, b.element);
        if |args| == |b.args| {
          forall k | 0 <= k < |args|
            ensures TypeMatch(args[k], b.args[k]) <==> Erase(args[k]) == Erase(b.args[k])
          {
            ClosedMatchIsErasedEquality(args[k], b.args[k]);
          }
          var ea := Erase(a).args;
          var eb := Erase(b).args;
          assert forall k :: 0 <= k < |args| ==> ea[k] == Erase(args[k]) && eb[k] == Erase(b.args[k]);
          assert ea == eb <==> forall k :: 0 <= k < |args| ==> ea[k] == eb[k];
          assert Erase(a) == Erase(b) <==> Erase(e) == Erase(b.element) && ea == eb;
        } else {
          assert |Erase(a).args| != |Erase(b).args|;
        }
      }
    case Modified(_, md, e) =>
      if b.Modified? {
        ModifiedRule(a, b);
        ClosedMatchIsErasedEquality(md, b.modifier);
        ClosedMatchIsErasedEquality(e, b.element);
      }
    case Other(_, _, e) =>
      if b.Other? {
        ClosedMatchIsErasedEquality(e, b.element);
      }
  }

  /** Between closed references the matcher is symmetric ... */
  lemma ClosedMatchSymmetric(a: TypeRef, b: TypeRef)
    requires Closed(a) && Closed(b)
    ensures TypeMatch(a, b) <==> TypeMatch(b, a)
  {
    ClosedMatchIsErasedEquality(a, b);
    ClosedMatchIsErasedEquality(b, a);
  }

  /** ... and transitive, so it is an equivalence on closed references. */
  lemma ClosedMatchTransitive(a: TypeRef, b: TypeRef, c: TypeRef)
    requires Closed(a) && Closed(b)
    requires TypeMatch(a, b) && TypeMatch(b, c)
    ensures TypeMatch(a, c)
  {
    ClosedMatchIsErasedEquality(a, b);
    ClosedMatchIsErasedEquality(b, c);
    ClosedMatchIsErasedEquality(a, c);
  }
}
