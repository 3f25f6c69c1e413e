/**
 Types.containsType: when a type argument contains another. The short-circuited test is compared with
 the documented relation L(T) <: L(S) && U(S) <: U(T).
 */
module Containment {
  import opened Wrappers

  datatype BoundKind = EXTENDS | SUPER | UNBOUND

  // Class types, captured type variables and wildcards. A wildcard's `bound` is the bound of the formal
  // type parameter it is an argument for.
  datatype Type =
    | BottomType
    | ClassType(name: int)
    | Captured(name: int, upper: Type, lower: Type, wildcard: Type)
    | Wildcard(kind: BoundKind, type_: Type, bound: Option<Type>)
  {
    predicate IsSuperBound() {
      Wildcard? && (kind == SUPER || kind == UNBOUND)
    }

    predicate IsExtendsBound() {
      Wildcard? && (kind == EXTENDS || kind == UNBOUND)
    }
  }

  // isSubtypeNoCapture and java.lang.Object.
  datatype World = World(sub: (Type, Type) -> bool, objectType: Type)

  // ---------------------------------------------------------------- bounds

  function U(w: World, t: Type): Type {
    if !t.Wildcard? then t
    else if t.IsSuperBound() then (if t.bound.None? then w.objectType else t.bound.value)
    else U(w, t.type_)
  }

  function L(w: World, t: Type): Type {
    if !t.Wildcard? then t
    else if t.IsExtendsBound() then BottomType
    else L(w, t.type_)
  }

  // Types.upperBound and lowerBound also look through captured variables.
  function UpperBound(w: World, t: Type): Type {
    match t
    case BottomType => t
    case ClassType(_) => t
    case Captured(_, upper, _, _) => UpperBound(w, upper)
    case Wildcard(_, inner, bound) =>
      if t.IsSuperBound() then (if bound.None? then w.objectType else bound.value) else UpperBound(w, inner)
  }

  function LowerBound(w: World, t: Type): Type {
    match t
    case BottomType => t
    case ClassType(_) => t
    case Captured(_, _, lower, _) => LowerBound(w, lower)
    case Wildcard(_, inner, _) => if t.IsExtendsBound() then BottomType else LowerBound(w, inner)
  }

  // The bounds of wildcards over a type that is no wildcard itself: `? extends t`, `? super t` and `?`.
  lemma BoundsByKind(w: World, t: Type, bound: Option<Type>)
    requires !t.Wildcard?
    ensures var e, s, u := Wildcard(EXTENDS, t, bound), Wildcard(SUPER, t, bound), Wildcard(UNBOUND, t, bound);
            var top := match bound case Some(b) => b case None => w.objectType;
            && U(w, e) == t && L(w, e) == BottomType && UpperBound(w, e) == UpperBound(w, t) && LowerBound(w, e) == BottomType
            && U(w, s) == top && L(w, s) == t && UpperBound(w, s) == top && LowerBound(w, s) == LowerBound(w, t)
            && U(w, u) == top && L(w, u) == BottomType && UpperBound(w, u) == top && LowerBound(w, u) == BottomType
  {
  }

  // The loops of the source.
  method ComputeU(w: World, type_: Type) returns (t: Type)
    ensures t == U(w, type_)
  {
    t := type_;
    while t.Wildcard?
      invariant U(w, t) == U(w, type_)
      decreases t
    {
      if t.IsSuperBound() {
        return if t.bound.None? then w.objectType else t.bound.value;
      }
      t := t.type_;
    }
  }

  method ComputeL(w: World, type_: Type) returns (t: Type)
    ensures t == L(w, type_)
  {
    t := type_;
    while t.Wildcard?
      invariant L(w, t) == L(w, type_)
      decreases t
    {
      if t.IsExtendsBound() {
        return BottomType;
      }
      t := t.type_;
    }
  }

  // ---------------------------------------------------------------- the test

  predicate IsSameWildcard(t: Type, s: Type)
    requires t.Wildcard?
  {
    s.Wildcard? && s.kind == t.kind && s.type_ == t.type_
  }

  predicate IsCaptureOf(s: Type, t: Type)
    requires t.Wildcard?
  {
    s.Captured? && IsSameWildcard(t, s.wildcard)
  }

  predicate Same(w: World, t: Type, s: Type) {
    w.sub(t, s) && w.sub(s, t)
  }

  // isSameType, for a class type t.
  predicate IsSameType(w: World, t: Type, s: Type) {
    if s.IsSuperBound() && !s.IsExtendsBound() then Same(w, t, UpperBound(w, s)) && Same(w, t, LowerBound(w, s))
    else s.ClassType? && Same(w, t, s)
  }

  predicate ContainsType(w: World, t: Type, s: Type) {
    if t.Wildcard? then
      || IsSameWildcard(t, s)
      || IsCaptureOf(s, t)
      || ((t.IsExtendsBound() || w.sub(L(w, t), LowerBound(w, s))) && (t.IsSuperBound() || w.sub(UpperBound(w, s), U(w, t))))
    else IsSameType(w, t, s)
  }

  // The documented relation.
  predicate Documented(w: World, t: Type, s: Type) {
    w.sub(L(w, t), L(w, s)) && w.sub(U(w, s), U(w, t))
  }

  // Which class types the wildcards over a class type contain: `? extends A` those below A, `? super A` those
  // above A and `?` every one; the class type A itself contains those equivalent to it.
  lemma ContainedClasses(w: World, a: int, b: int, bound: Option<Type>)
    ensures ContainsType(w, Wildcard(EXTENDS, ClassType(a), bound), ClassType(b)) <==> w.sub(ClassType(b), ClassType(a))
    ensures ContainsType(w, Wildcard(SUPER, ClassType(a), bound), ClassType(b)) <==> w.sub(ClassType(a), ClassType(b))
    ensures ContainsType(w, Wildcard(UNBOUND, ClassType(a), bound), ClassType(b))
    ensures ContainsType(w, ClassType(a), ClassType(b)) <==> w.sub(ClassType(a), ClassType(b)) && w.sub(ClassType(b), ClassType(a))
  {
    BoundsByKind(w, ClassType(a), bound);
    assert UpperBound(w, ClassType(b)) == ClassType(b) == LowerBound(w, ClassType(b));
  }

  // ---------------------------------------------------------------- assumptions

  // Subtyping is a preorder with a bottom, which no class type is below.
  ghost predicate Lawful(w: World) {
    && (forall a :: w.sub(a, a))
    && (forall a, b, c :: w.sub(a, b) && w.sub(b, c) ==> w.sub(a, c))
    && (forall a :: w.sub(BottomType, a))
    && (forall n: int :: !w.sub(ClassType(n), BottomType))
  }

  // Captured variables lie within their bounds and those of the wildcard they stand for; the lower bound
  // of a wildcard is below its upper bound.
  ghost predicate WellBounded(w: World, s: Type) {
    && w.sub(U(w, s), UpperBound(w, s)) && w.sub(LowerBound(w, s), L(w, s))
    && (s.Captured? ==> w.sub(L(w, s.wildcard), s) && w.sub(s, U(w, s.wildcard)))
    && (s.Wildcard? ==> w.sub(L(w, s), U(w, s)))
  }

  // "The arguments have already been checked against their bounds": for a super bound T, U(T) is the bound.
  ghost predicate Checked(w: World, t: Type, s: Type) {
    WellBounded(w, s) && (t.IsSuperBound() ==> w.sub(U(w, s), U(w, t)))
  }

  // Without captured variables, upperBound and lowerBound are U and L.
  predicate CaptureFree(t: Type) {
    match t
    case BottomType => true
    case ClassType(_) => true
    case Captured(_, _, _, _) => false
    case Wildcard(_, inner, _) => CaptureFree(inner)
  }

  lemma {:induction false} BoundsOfCaptureFree(w: World, t: Type)
    requires CaptureFree(t)
    ensures UpperBound(w, t) == U(w, t) && LowerBound(w, t) == L(w, t)
  {
    if t.Wildcard? {
      BoundsOfCaptureFree(w, t.type_);
    }
  }

  // ---------------------------------------------------------------- the test against the documentation

  // The types containsType is asked about on the left: class types and wildcards.
  predicate IsArgument(t: Type) {
    t.ClassType? || t.Wildcard?
  }

  // Sound, for all S.
  lemma ContainsIsSound(w: World, t: Type, s: Type)
    requires Lawful(w) && Checked(w, t, s) && IsArgument(t)
    requires ContainsType(w, t, s)
    ensures Documented(w, t, s)
  {
  }

  // upperBound and lowerBound of s say no more than U and L do.
  predicate BoundsAgree(w: World, s: Type) {
    w.sub(L(w, s), LowerBound(w, s)) && w.sub(UpperBound(w, s), U(w, s))
  }

  // S is not a captured variable (or bottom) that is equivalent to a class type, which isSameType keeps apart.
  ghost predicate NoClassInDisguise(w: World, s: Type) {
    IsArgument(s) || forall n: int :: !Same(w, ClassType(n), s)
  }

  // Complete, when the two kinds of bounds of S agree and S is no class in disguise; without captured
  // variables both hold.
  lemma ContainsIsComplete(w: World, t: Type, s: Type)
    requires Lawful(w) && Checked(w, t, s) && IsArgument(t) && BoundsAgree(w, s) && NoClassInDisguise(w, s)
    requires Documented(w, t, s)
    ensures ContainsType(w, t, s)
  {
  }

  lemma CaptureFreeBoundsAgree(w: World, s: Type)
    requires Lawful(w) && CaptureFree(s)
    ensures BoundsAgree(w, s)
  {
    BoundsOfCaptureFree(w, s);
  }

  lemma ContainsAsDocumented(w: World, t: Type, s: Type)
    requires Lawful(w) && Checked(w, t, s) && IsArgument(t) && BoundsAgree(w, s) && NoClassInDisguise(w, s)
    ensures ContainsType(w, t, s) <==> Documented(w, t, s)
  {
    if ContainsType(w, t, s) {
      ContainsIsSound(w, t, s);
    }
    if Documented(w, t, s) {
      ContainsIsComplete(w, t, s);
    }
  }

  ghost predicate AsDocumentedFor(w: World, s: Type) {
    forall t: Type :: IsArgument(t) && Checked(w, t, s) ==> (ContainsType(w, t, s) <==> Documented(w, t, s))
  }

  // Exactly when all T are answered as documented. For any other S, the wildcard ? super S, the wildcard
  // ? extends S or a class type equivalent to S shows the difference.
  lemma AsDocumentedExactly(w: World, s: Type)
    requires Lawful(w) && WellBounded(w, s)
    ensures AsDocumentedFor(w, s) <==> BoundsAgree(w, s) && NoClassInDisguise(w, s)
    ensures CaptureFree(s) ==> BoundsAgree(w, s) && NoClassInDisguise(w, s)
  {
    if CaptureFree(s) {
      CaptureFreeBoundsAgree(w, s);
    }
    hide ContainsType, Documented, Checked, BoundsAgree;
    if BoundsAgree(w, s) && NoClassInDisguise(w, s) {
      forall t: Type | IsArgument(t) && Checked(w, t, s)
        ensures ContainsType(w, t, s) <==> Documented(w, t, s)
      {
        ContainsAsDocumented(w, t, s);
      }
    } else if BoundsAgree(w, s) {
      var n: int :| !IsArgument(s) && Same(w, ClassType(n), s);
      ClassShowsIt(w, n, s);
    } else {
      WildcardsShowIt(w, s);
    }
  }

  lemma ClassShowsIt(w: World, n: int, s: Type)
    requires Lawful(w) && WellBounded(w, s) && !IsArgument(s) && Same(w, ClassType(n), s)
    ensures Checked(w, ClassType(n), s) && Documented(w, ClassType(n), s) && !ContainsType(w, ClassType(n), s)
  {
  }

  lemma WildcardsShowIt(w: World, s: Type)
    requires Lawful(w) && WellBounded(w, s) && !BoundsAgree(w, s)
    ensures exists t: Type :: t.Wildcard? && Checked(w, t, s) && Documented(w, t, s) && !ContainsType(w, t, s)
  {
    NotAroundItself(w, s);
    var lower, upper := Wildcard(SUPER, s, Some(U(w, s))), Wildcard(EXTENDS, s, None);
    assert Documented(w, lower, s) && Checked(w, lower, s);
    assert Documented(w, upper, s) && Checked(w, upper, s);
    assert !ContainsType(w, lower, s) || !ContainsType(w, upper, s);
  }

  // The wildcards around s are neither s nor the wildcard s was captured from.
  lemma NotAroundItself(w: World, s: Type)
    ensures forall k: BoundKind, b ::
              !IsSameWildcard(Wildcard(k, s, b), s) && !IsCaptureOf(s, Wildcard(k, s, b))
  {
    forall k: BoundKind, b
      ensures !IsSameWildcard(Wildcard(k, s, b), s) && !IsCaptureOf(s, Wildcard(k, s, b))
    {
      if s.Wildcard? {
        assert s.type_ < s;
      } else if s.Captured? && s.wildcard.Wildcard? {
        assert s.wildcard.type_ < s.wildcard < s;
      }
    }
  }

  // A captured S can be missed: for X captured from ?, the documented relation says that ? super X contains
  // X (X <: X); but lowerBound(X) is bottom, and X is not a subtype of bottom.
  lemma CapturedCanBeMissed()
    ensures var top := ClassType(0);
            var w := World((a, b) => a == b || a == BottomType || b == top, top);
            var x := Captured(0, top, BottomType, Wildcard(UNBOUND, top, None));
            var t := Wildcard(SUPER, x, None);
            Lawful(w) && Checked(w, t, x) && Documented(w, t, x) && !ContainsType(w, t, x)
  {
    var top := ClassType(0);
    var w := World((a, b) => a == b || a == BottomType || b == top, top);
    var x := Captured(0, top, BottomType, Wildcard(UNBOUND, top, None));
    var t := Wildcard(SUPER, x, None);
    assert L(w, t) == x && LowerBound(w, x) == BottomType && U(w, t) == top && UpperBound(w, x) == top;
  }

  // And a captured S can be a class in disguise: the capture of ? super C for a parameter bounded by C has C
  // for both bounds, but C does not contain it.
  lemma CapturedCanBeAClass()
    ensures var c := ClassType(1);
            var x := Captured(0, c, c, Wildcard(SUPER, c, Some(c)));
            var w := World((a, b) => a == b || a == BottomType || (a in {c, x} && b in {c, x}), c);
            Lawful(w) && Checked(w, c, x) && BoundsAgree(w, x) && Documented(w, c, x) && !ContainsType(w, c, x)
  {
  }

  // Containment is reflexive and transitive.
  lemma ContainsReflexive(w: World, t: Type)
    requires Lawful(w) && IsArgument(t)
    ensures ContainsType(w, t, t)
  {
  }

  // What makes containment transitive into R: upperBound(R) says no more than U(R); and for a captured R,
  // its lower bound is not a class type equivalent to it, and is above that of its wildcard ? super X.
  predicate TransitiveCondition(w: World, r: Type) {
    && w.sub(UpperBound(w, r), U(w, r))
    && (r.Captured? ==>
          && !(LowerBound(w, r).ClassType? && w.sub(r, LowerBound(w, r)))
          && (r.wildcard.Wildcard? && r.wildcard.kind == SUPER ==> w.sub(LowerBound(w, r.wildcard), LowerBound(w, r))))
  }

  lemma ContainsTransitive(w: World, t: Type, s: Type, r: Type)
    requires Lawful(w) && IsArgument(t) && IsArgument(s) && TransitiveCondition(w, r)
    requires Checked(w, t, s) && Checked(w, s, r)
    requires ContainsType(w, t, s) && ContainsType(w, s, r)
    ensures ContainsType(w, t, r)
  {
    ContainsIsSound(w, t, s);
    ContainsIsSound(w, s, r);
    if t.ClassType? {
      TransitiveFromClass(w, t, s, r);
    } else {
      TransitiveUpper(w, t, s, r);
      if IsSameWildcard(t, s) {
        TransitiveFromSame(w, t, s, r);
      } else if !t.IsExtendsBound() {
        TransitiveLower(w, t, s, r);
      }
    }
    hide IsSameType, Documented, L, U, UpperBound, LowerBound;
  }

  lemma TransitiveUpper(w: World, t: Type, s: Type, r: Type)
    requires Lawful(w) && Documented(w, t, s) && Documented(w, s, r) && w.sub(UpperBound(w, r), U(w, r))
    ensures w.sub(UpperBound(w, r), U(w, t))
  {
    hide U, UpperBound, L;
  }

  lemma TransitiveLower(w: World, t: Type, s: Type, r: Type)
    requires Lawful(w) && WellBounded(w, s) && IsArgument(s) && ContainsType(w, s, r) && TransitiveCondition(w, r)
    requires w.sub(L(w, t), LowerBound(w, s))
    ensures w.sub(L(w, t), LowerBound(w, r))
  {
  }

  lemma TransitiveFromSame(w: World, t: Type, s: Type, r: Type)
    requires Lawful(w) && t.Wildcard? && IsSameWildcard(t, s) && ContainsType(w, s, r)
    requires w.sub(UpperBound(w, r), U(w, t))
    ensures ContainsType(w, t, r)
  {
  }

  // The lower bound of a type without wildcards is a class type or bottom.
  lemma {:induction false} LowerBoundIsPlain(w: World, t: Type)
    ensures LowerBound(w, t).ClassType? || LowerBound(w, t).BottomType?
  {
    match t {
      case Captured(_, _, lower, _) => LowerBoundIsPlain(w, lower);
      case Wildcard(_, inner, _) => LowerBoundIsPlain(w, inner);
      case _ =>
    }
  }

  lemma TransitiveFromClass(w: World, t: Type, s: Type, r: Type)
    requires Lawful(w) && t.ClassType? && IsArgument(s) && Checked(w, s, r) && Checked(w, t, s)
    requires ContainsType(w, t, s) && ContainsType(w, s, r) && TransitiveCondition(w, r)
    ensures ContainsType(w, t, r)
  {
    LowerBoundIsPlain(w, r);
    if r.BottomType? || r.Captured? {
      NotIntoCaptured(w, t, s, r);
    }
  }

  // A class type never contains an S that contains such an R.
  lemma NotIntoCaptured(w: World, t: Type, s: Type, r: Type)
    requires Lawful(w) && t.ClassType? && IsArgument(s) && Checked(w, s, r) && Checked(w, t, s)
    requires (r.BottomType? || r.Captured?) && TransitiveCondition(w, r)
    ensures !(ContainsType(w, t, s) && ContainsType(w, s, r))
  {
    LowerBoundIsPlain(w, r);
  }

  ghost predicate TransitiveInto(w: World, r: Type) {
    forall t: Type, s: Type ::
      IsArgument(t) && IsArgument(s) && Checked(w, t, s) && Checked(w, s, r) && ContainsType(w, t, s) && ContainsType(w, s, r) ==>
        ContainsType(w, t, r)
  }

  ghost predicate BreaksTransitivity(w: World, t: Type, s: Type, r: Type) {
    && IsArgument(t) && IsArgument(s) && Checked(w, t, s) && Checked(w, s, r)
    && ContainsType(w, t, s) && ContainsType(w, s, r) && !ContainsType(w, t, r)
  }

  // Exactly then, whatever R is.
  lemma TransitiveExactly(w: World, r: Type)
    requires Lawful(w) && WellBounded(w, r) && (r.Captured? ==> WellBounded(w, r.wildcard))
    ensures TransitiveInto(w, r) <==> TransitiveCondition(w, r)
    ensures CaptureFree(r) ==> TransitiveCondition(w, r)
  {
    if CaptureFree(r) {
      CaptureFreeBoundsAgree(w, r);
    }
    hide ContainsType, Checked, UpperBound, LowerBound, U, L;
    if TransitiveCondition(w, r) {
      forall t: Type, s: Type |
        IsArgument(t) && IsArgument(s) && Checked(w, t, s) && Checked(w, s, r) && ContainsType(w, t, s) && ContainsType(w, s, r)
        ensures ContainsType(w, t, r)
      {
        ContainsTransitive(w, t, s, r);
      }
    } else if !w.sub(UpperBound(w, r), U(w, r)) {
      BrokenAbove(w, r);
    } else if LowerBound(w, r).ClassType? && w.sub(r, LowerBound(w, r)) {
      BrokenByClass(w, r);
    } else {
      var t := BrokenBelow(w, r);
    }
  }

  // ? extends R contains the wildcard ? with bound U(R), which contains R.
  lemma BrokenAbove(w: World, r: Type)
    requires Lawful(w) && WellBounded(w, r) && !w.sub(UpperBound(w, r), U(w, r))
    ensures BreaksTransitivity(w, Wildcard(EXTENDS, r, None), Wildcard(UNBOUND, r, Some(U(w, r))), r)
  {
    NotAroundItself(w, r);
  }

  // The class C that is the lower bound of R contains ? super C with bound C, which contains R.
  lemma BrokenByClass(w: World, r: Type)
    requires Lawful(w) && WellBounded(w, r) && r.Captured? && LowerBound(w, r).ClassType? && w.sub(r, LowerBound(w, r))
    ensures var c := LowerBound(w, r); BreaksTransitivity(w, c, Wildcard(SUPER, c, Some(c)), r)
  {
  }

  // A wildcard ? super X with the lower bound X of the wildcard that R was captured from contains that
  // wildcard, which contains R.
  lemma BrokenBelow(w: World, r: Type) returns (t: Type)
    requires Lawful(w) && WellBounded(w, r) && r.Captured? && r.wildcard.Wildcard? && r.wildcard.kind == SUPER
    requires WellBounded(w, r.wildcard) && !w.sub(LowerBound(w, r.wildcard), LowerBound(w, r))
    ensures BreaksTransitivity(w, t, r.wildcard, r)
  {
    var s, x := r.wildcard, LowerBound(w, r.wildcard);
    LowerBoundIsPlain(w, s);
    t := if s.type_ == x then Wildcard(SUPER, Wildcard(SUPER, x, None), Some(U(w, s))) else Wildcard(SUPER, x, Some(U(w, s)));
    assert L(w, Wildcard(SUPER, x, None)) == L(w, x) == x;
    assert L(w, t) == x;
  }

  // ---------------------------------------------------------------- argument lists

  predicate ContainsAll(w: World, ts: seq<Type>, ss: seq<Type>) {
    |ts| == |ss| && forall i :: 0 <= i < |ts| ==> ContainsType(w, ts[i], ss[i])
  }

  method ContainsTypes(w: World, types: seq<Type>, others: seq<Type>) returns (r: bool)
    ensures r == ContainsAll(w, types, others)
  {
    hide ContainsType;
    var ts, ss := types, others;
    while ts != [] && ss != [] && ContainsType(w, ts[0], ss[0])
      invariant |ts| <= |types| && |ss| <= |others|
      invariant ts == types[|types| - |ts|..] && ss == others[|others| - |ss|..]
      invariant |types| - |ts| == |others| - |ss|
      invariant forall i :: 0 <= i < |types| - |ts| ==> ContainsType(w, types[i], others[i])
      decreases |ts|
    {
      ts, ss := ts[1..], ss[1..];
    }
    return ts == [] && ss == [];
  }

  ghost predicate CheckedAll(w: World, ts: seq<Type>, ss: seq<Type>) {
    |ts| == |ss| && forall i :: 0 <= i < |ts| ==> Checked(w, ts[i], ss[i])
  }

  predicate Arguments(ts: seq<Type>) {
    forall i :: 0 <= i < |ts| ==> IsArgument(ts[i])
  }

  predicate TransitiveConditions(w: World, ts: seq<Type>) {
    forall i :: 0 <= i < |ts| ==> TransitiveCondition(w, ts[i])
  }

  // Lifted to argument lists, containment is reflexive and in the same way transitive.
  lemma ContainsAllPreorder(w: World, ts: seq<Type>, ss: seq<Type>, rs: seq<Type>)
    requires Lawful(w) && Arguments(ts) && Arguments(ss) && TransitiveConditions(w, rs)
    requires CheckedAll(w, ts, ss) && CheckedAll(w, ss, rs)
    ensures ContainsAll(w, ts, ts)
    ensures ContainsAll(w, ts, ss) && ContainsAll(w, ss, rs) ==> ContainsAll(w, ts, rs)
  {
    hide ContainsType, Checked, Lawful, IsArgument, TransitiveCondition;
    forall i | 0 <= i < |ts|
      ensures ContainsType(w, ts[i], ts[i])
    {
      ContainsReflexive(w, ts[i]);
    }
    if ContainsAll(w, ts, ss) && ContainsAll(w, ss, rs) {
      forall i | 0 <= i < |ts|
        ensures ContainsType(w, ts[i], rs[i])
      {
        ContainsTransitive(w, ts[i], ss[i], rs[i]);
      }
    }
  }
}
