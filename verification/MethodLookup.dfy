/**
 MethodSymbol.overrides, implementation, binaryOverrides and binaryImplementation: the language-level
 and the VM-level search for the implementation of a method, how dispatch agrees along the superclass
 chain, and when the two searches agree with each other.
 */
module MethodLookup {
  import opened Wrappers
  import opened ClassTable
  import opened Membership

  // ---------------------------------------------------------------- the override tests

  predicate IsOverridableIn(t: Table, a: Sym, origin: Class) {
    match t.sym(a).access
    case Public => true
    case Protected => !t.cls(origin).isInterface
    case PackagePrivate => t.cls(t.sym(a).owner).packge == t.cls(origin).packge && !t.cls(origin).isInterface
    case Private | Mixed => false
  }

  // Overridable against inherited, in a class other than the owner: what is inherited can be overridden, and
  // what is not inherited can be overridden only if it is package-private, declared in the package of c, and
  // cut off by a class of another package in between.
  lemma OverridableAgainstInherited(t: Table, a: Sym, c: Class)
    requires WellFormed(t) && c != t.sym(a).owner && !t.cls(c).isCompound && t.sym(a).access != Mixed
    ensures InheritedIn(t, a, c) ==> IsOverridableIn(t, a, c)
    ensures !InheritedIn(t, a, c) && IsOverridableIn(t, a, c) ==>
              && t.sym(a).access == PackagePrivate
              && exists k: nat :: && BelowOwner(t, a, Chain(t, c), k)
                                  && t.cls(Chain(t, c)[k]).packge != t.cls(c).packge && t.cls(c).packge == t.cls(t.sym(a).owner).packge
  {
    assert BelowOwner(t, a, Chain(t, c), 0);
    hide Chain, WellFormed;
  }

  ghost predicate OverridesDirectly(t: Table, m: Sym, a: Sym) {
    IsOverridableIn(t, a, t.sym(m).owner) && Subclass(t, t.sym(m).owner, t.sym(a).owner)
  }

  // overrides: does m override a when both are seen as members of origin?
  ghost predicate Overrides(t: Table, m: Sym, a: Sym, origin: Class, checkResult: bool)
    requires WellFormed(t)
  {
    && !t.sym(m).isConstructor && t.sym(a).kind == Method
    && (|| m == a
        || (OverridesDirectly(t, m, a) && t.isSubSignature(m, a) && (checkResult ==> t.returnTypeSubstitutable(m, a)))
        || (&& !t.sym(m).isAbstract && t.sym(a).isAbstract
            && IsOverridableIn(t, a, origin) && MemberOf(t, m, origin)
            && t.isSubSignature(m, a) && (checkResult ==> t.resultSubtype(m, a))))
  }

  // The second guard of binaryOverrides.
  ghost predicate VmInherits(t: Table, m: Sym, a: Sym, origin: Class)
    requires WellFormed(t)
  {
    !t.sym(m).isAbstract && IsOverridableIn(t, a, origin) && MemberOf(t, m, origin) && t.sameErasure(m, a)
  }

  ghost predicate BinaryOverrides(t: Table, m: Sym, a: Sym, origin: Class)
    requires WellFormed(t)
  {
    && !t.sym(m).isConstructor && t.sym(a).kind == Method
    && (|| m == a
        || (OverridesDirectly(t, m, a) && t.sameErasure(m, a))
        || VmInherits(t, m, a, origin))
  }

  // A symbol the loop of `implementation` returns.
  ghost predicate Implements(t: Table, m: Sym, a: Sym, origin: Class, checkResult: bool)
    requires WellFormed(t)
  {
    t.sym(m).kind == Method && Overrides(t, m, a, origin, checkResult) && !t.sym(m).isSynthetic
  }

  // A symbol the loop of `binaryImplementation` returns.
  ghost predicate VmImplements(t: Table, m: Sym, a: Sym, origin: Class)
    requires WellFormed(t)
  {
    t.sym(m).kind == Method && BinaryOverrides(t, m, a, origin)
  }

  // ---------------------------------------------------------------- the candidates, in search order

  function Named(t: Table, members: seq<Sym>, name: int): (r: seq<Sym>)
    ensures forall m :: m in r <==> m in members && t.sym(m).name == name
  {
    if members == [] then []
    else if t.sym(members[0]).name == name then [members[0]] + Named(t, members[1..], name)
    else Named(t, members[1..], name)
  }

  // What the nested loops see: class by class up the chain, in each class the entries of that name.
  ghost function Candidates(t: Table, chain: seq<Class>, name: int): seq<Sym> {
    if chain == [] then []
    else Named(t, t.cls(chain[0]).members, name) + Candidates(t, chain[1..], name)
  }

  ghost function First(cands: seq<Sym>, good: Sym -> bool): Option<Sym> {
    if cands == [] then None
    else if good(cands[0]) then Some(cands[0])
    else First(cands[1..], good)
  }

  ghost function Implementation(t: Table, a: Sym, origin: Class, checkResult: bool): Option<Sym>
    requires WellFormed(t)
  {
    First(Candidates(t, Chain(t, origin), t.sym(a).name), m => Implements(t, m, a, origin, checkResult))
  }

  ghost function BinaryImplementation(t: Table, a: Sym, origin: Class): Option<Sym>
    requires WellFormed(t)
  {
    First(Candidates(t, Chain(t, origin), t.sym(a).name), m => VmImplements(t, m, a, origin))
  }

  lemma {:induction false} FirstIsFirst(cands: seq<Sym>, good: Sym -> bool)
    ensures First(cands, good).None? <==> forall m :: m in cands ==> !good(m)
    ensures First(cands, good).Some? ==> First(cands, good).value in cands && good(First(cands, good).value)
  {
    if cands != [] {
      assert forall m :: m in cands <==> m == cands[0] || m in cands[1..];
      FirstIsFirst(cands[1..], good);
    }
  }

  lemma {:induction false} FirstOfConcat(front: seq<Sym>, back: seq<Sym>, good: Sym -> bool)
    ensures First(front + back, good) == if First(front, good).Some? then First(front, good) else First(back, good)
  {
    if front == [] {
      assert front + back == back;
    } else {
      assert (front + back)[1..] == front[1..] + back;
      FirstOfConcat(front[1..], back, good);
    }
  }

  lemma {:induction false} FirstSame(cands: seq<Sym>, good: Sym -> bool, fine: Sym -> bool)
    requires forall m :: m in cands ==> good(m) == fine(m)
    ensures First(cands, good) == First(cands, fine)
  {
    if cands != [] {
      assert forall m :: m in cands <==> m == cands[0] || m in cands[1..];
      FirstSame(cands[1..], good, fine);
    }
  }

  lemma {:induction false} CandidatesOfConcat(t: Table, low: seq<Class>, high: seq<Class>, name: int)
    ensures Candidates(t, low + high, name) == Candidates(t, low, name) + Candidates(t, high, name)
  {
    if low == [] {
      assert low + high == high;
    } else {
      assert (low + high)[1..] == low[1..] + high;
      CandidatesOfConcat(t, low[1..], high, name);
    }
  }

  lemma {:induction false} CandidatesAre(t: Table, chain: seq<Class>, name: int)
    ensures forall m :: m in Candidates(t, chain, name) <==>
                        exists k :: 0 <= k < |chain| && m in t.cls(chain[k]).members && t.sym(m).name == name
  {
    if chain != [] {
      CandidatesAre(t, chain[1..], name);
      forall m
        ensures m in Candidates(t, chain, name) <==>
                exists k :: 0 <= k < |chain| && m in t.cls(chain[k]).members && t.sym(m).name == name
      {
        if m in Candidates(t, chain[1..], name) {
          var k :| 0 <= k < |chain[1..]| && m in t.cls(chain[1..][k]).members;
          assert chain[1..][k] == chain[k + 1];
        }
        if k :| 0 <= k < |chain| && m in t.cls(chain[k]).members && t.sym(m).name == name {
          assert k > 0 ==> chain[k] == chain[1..][k - 1];
        }
      }
    }
  }

  // Every candidate is a member of its owner, which lies on the chain.
  lemma {:induction false} CandidateOwner(t: Table, origin: Class, name: int, m: Sym)
    requires WellFormed(t) && m in Candidates(t, Chain(t, origin), name)
    ensures t.sym(m).owner in Chain(t, origin) && t.sym(m).name == name
  {
    var chain := Chain(t, origin);
    CandidatesAre(t, chain, name);
    var k :| 0 <= k < |chain| && m in t.cls(chain[k]).members;
    MemberKnowsOwner(t, chain[k], m);
  }

  // ---------------------------------------------------------------- the loops of the source

  method DoesOverride(t: Table, m: Sym, a: Sym, origin: Class, checkResult: bool) returns (r: bool)
    requires WellFormed(t)
    ensures r == Overrides(t, m, a, origin, checkResult)
  {
    if t.sym(m).isConstructor || t.sym(a).kind != Method { return false; }
    if m == a { return true; }
    if IsOverridableIn(t, a, t.sym(m).owner) {
      var below := HasSuper(t, t.sym(m).owner, t.sym(a).owner);
      if below && t.isSubSignature(m, a) {
        if !checkResult { return true; }
        if t.returnTypeSubstitutable(m, a) { return true; }
      }
    }
    if t.sym(m).isAbstract || !t.sym(a).isAbstract || !IsOverridableIn(t, a, origin) { return false; }
    var member := IsMemberOf(t, m, origin);
    if !member { return false; }
    return t.isSubSignature(m, a) && (!checkResult || t.resultSubtype(m, a));
  }

  method DoesBinaryOverride(t: Table, m: Sym, a: Sym, origin: Class) returns (r: bool)
    requires WellFormed(t)
    ensures r == BinaryOverrides(t, m, a, origin)
  {
    if t.sym(m).isConstructor || t.sym(a).kind != Method { return false; }
    if m == a { return true; }
    if IsOverridableIn(t, a, t.sym(m).owner) {
      var below := HasSuper(t, t.sym(m).owner, t.sym(a).owner);
      if below && t.sameErasure(m, a) { return true; }
    }
    if t.sym(m).isAbstract || !IsOverridableIn(t, a, origin) { return false; }
    r := IsMemberOf(t, m, origin);
    r := r && t.sameErasure(m, a);
  }

  lemma ChainUnfold(t: Table, c: Class, name: int)
    requires WellFormed(t)
    ensures var here := Named(t, t.cls(c).members, name);
            Candidates(t, Chain(t, c), name) ==
            match t.cls(c).supertype
            case None => here
            case Some(up) => here + Candidates(t, Chain(t, up), name)
  {
    if t.cls(c).supertype.Some? {
      assert Chain(t, c)[1..] == Chain(t, t.cls(c).supertype.value);
    } else {
      assert Chain(t, c)[1..] == [];
    }
  }

  lemma SearchStep(t: Table, c: Class, name: int, good: Sym -> bool)
    requires WellFormed(t)
    ensures var here, up := First(Named(t, t.cls(c).members, name), good), t.cls(c).supertype;
            && Acyclic(t) && (up.Some? ==> Rank(t)(up.value) < Rank(t)(c))
            && First(Candidates(t, Chain(t, c), name), good) ==
               if here.Some? then here
               else if up.Some? then First(Candidates(t, Chain(t, up.value), name), good)
               else None
  {
    ChainUnfold(t, c, name);
    if t.cls(c).supertype.Some? {
      var up := t.cls(c).supertype.value;
      RankDecreases(t, c, up);
      hide *;
      FirstOfConcat(Named(t, t.cls(c).members, name), Candidates(t, Chain(t, up), name), good);
    }
  }

  lemma ImplementationIs(t: Table, a: Sym, origin: Class, checkResult: bool)
    requires WellFormed(t)
    ensures Acyclic(t)
    ensures Implementation(t, a, origin, checkResult) ==
            First(Candidates(t, Chain(t, origin), t.sym(a).name), m => Implements(t, m, a, origin, checkResult))
  {
  }

  lemma BinaryImplementationIs(t: Table, a: Sym, origin: Class)
    requires WellFormed(t)
    ensures Acyclic(t)
    ensures BinaryImplementation(t, a, origin) ==
            First(Candidates(t, Chain(t, origin), t.sym(a).name), m => VmImplements(t, m, a, origin))
  {
  }

  // The inner loop of `implementation`: the entries of one class.
  method FindImplementationInClass(t: Table, a: Sym, origin: Class, checkResult: bool, entries: seq<Sym>) returns (r: Option<Sym>)
    requires WellFormed(t)
    ensures r == First(entries, m => Implements(t, m, a, origin, checkResult))
  {
    ghost var good := m => Implements(t, m, a, origin, checkResult);
    for k := 0 to |entries|
      invariant First(entries, good) == First(entries[k..], good)
    {
      var e := entries[k];
      assert entries[k..][1..] == entries[k + 1..];
      if t.sym(e).kind == Method {
        var overrides := DoesOverride(t, e, a, origin, checkResult);
        if overrides && !t.sym(e).isSynthetic {
          return Some(e);
        }
      }
    }
    return None;
  }

  // `implementation`, for hierarchies without raw supertypes.
  method FindImplementation(t: Table, a: Sym, origin: Class, checkResult: bool) returns (r: Option<Sym>)
    requires WellFormed(t)
    ensures r == Implementation(t, a, origin, checkResult)
  {
    hide *;
    ghost var good, name := m => Implements(t, m, a, origin, checkResult), t.sym(a).name;
    ImplementationIs(t, a, origin, checkResult);
    var c := Some(origin);
    while c.Some?
      invariant Implementation(t, a, origin, checkResult) ==
                if c.Some? then First(Candidates(t, Chain(t, c.value), name), good) else None
      decreases if c.Some? then Rank(t)(c.value) + 1 else 0
    {
      var entries := Named(t, t.cls(c.value).members, t.sym(a).name);
      r := FindImplementationInClass(t, a, origin, checkResult, entries);
      SearchStep(t, c.value, name, good);
      if r.Some? { return; }
      c := t.cls(c.value).supertype;
    }
    return None;
  }

  // The inner loop of `binaryImplementation`: the entries of one class.
  method FindBinaryImplementationInClass(t: Table, a: Sym, origin: Class, entries: seq<Sym>) returns (r: Option<Sym>)
    requires WellFormed(t)
    ensures r == First(entries, m => VmImplements(t, m, a, origin))
  {
    ghost var good := m => VmImplements(t, m, a, origin);
    for k := 0 to |entries|
      invariant First(entries, good) == First(entries[k..], good)
    {
      var e := entries[k];
      assert entries[k..][1..] == entries[k + 1..];
      if t.sym(e).kind == Method {
        var overrides := DoesBinaryOverride(t, e, a, origin);
        if overrides {
          return Some(e);
        }
      }
    }
    return None;
  }

  // `binaryImplementation`.
  method FindBinaryImplementation(t: Table, a: Sym, origin: Class) returns (r: Option<Sym>)
    requires WellFormed(t)
    ensures r == BinaryImplementation(t, a, origin)
  {
    hide *;
    ghost var good, name := m => VmImplements(t, m, a, origin), t.sym(a).name;
    BinaryImplementationIs(t, a, origin);
    var c := Some(origin);
    while c.Some?
      invariant BinaryImplementation(t, a, origin) ==
                if c.Some? then First(Candidates(t, Chain(t, c.value), name), good) else None
      decreases if c.Some? then Rank(t)(c.value) + 1 else 0
    {
      var entries := Named(t, t.cls(c.value).members, t.sym(a).name);
      r := FindBinaryImplementationInClass(t, a, origin, entries);
      SearchStep(t, c.value, name, good);
      if r.Some? { return; }
      c := t.cls(c.value).supertype;
    }
    return None;
  }

  // ---------------------------------------------------------------- overriding, field by field

  // A class can override a unless a is private or has mixed access flags; only classes can override protected
  // methods, and only classes of the owner's package package-private ones.
  lemma OverridableExactly(t: Table, a: Sym, c: Class)
    ensures t.sym(a).access == Public ==> IsOverridableIn(t, a, c)
    ensures t.sym(a).access == Private || t.sym(a).access == Mixed ==> !IsOverridableIn(t, a, c)
    ensures t.sym(a).access == Protected ==> (IsOverridableIn(t, a, c) <==> !t.cls(c).isInterface)
    ensures t.sym(a).access == PackagePrivate ==>
              (IsOverridableIn(t, a, c) <==> !t.cls(c).isInterface && t.cls(c).packge == t.cls(t.sym(a).owner).packge)
  {
  }

  // An abstract method, or one that overrides a concrete method, lies below what it overrides.
  lemma OverriderLiesBelow(t: Table, m: Sym, a: Sym, origin: Class, checkResult: bool)
    requires WellFormed(t) && Overrides(t, m, a, origin, checkResult) && m != a
    ensures t.isSubSignature(m, a)
    ensures t.sym(m).isAbstract || !t.sym(a).isAbstract ==>
              && Subclass(t, t.sym(m).owner, t.sym(a).owner)
              && (checkResult ==> t.returnTypeSubstitutable(m, a))
    ensures Subclass(t, t.sym(m).owner, t.sym(a).owner) || MemberOf(t, m, origin)
  {
  }

  // What overriding a public method means, with every condition written out.
  lemma OverridesPublicExactly(t: Table, m: Sym, a: Sym, origin: Class, checkResult: bool)
    requires WellFormed(t) && t.sym(a).access == Public
    ensures Overrides(t, m, a, origin, checkResult) <==>
            && !t.sym(m).isConstructor && t.sym(a).kind == Method
            && (m == a
                || (t.isSubSignature(m, a) && Subclass(t, t.sym(m).owner, t.sym(a).owner)
                    && (checkResult ==> t.returnTypeSubstitutable(m, a)))
                || (t.isSubSignature(m, a) && !t.sym(m).isAbstract && t.sym(a).isAbstract && MemberOf(t, m, origin)
                    && (checkResult ==> t.resultSubtype(m, a))))
  {
    hide MemberOf, Subclass;
  }

  // The same for the VM.
  lemma BinaryOverriderLiesBelow(t: Table, m: Sym, a: Sym, origin: Class)
    requires WellFormed(t) && BinaryOverrides(t, m, a, origin) && m != a
    ensures t.sameErasure(m, a)
    ensures Subclass(t, t.sym(m).owner, t.sym(a).owner) || (!t.sym(m).isAbstract && MemberOf(t, m, origin))
  {
  }

  lemma BinaryOverridesPublicExactly(t: Table, m: Sym, a: Sym, origin: Class)
    requires WellFormed(t) && t.sym(a).access == Public
    ensures BinaryOverrides(t, m, a, origin) <==>
            && !t.sym(m).isConstructor && t.sym(a).kind == Method
            && (m == a
                || (t.sameErasure(m, a) && (Subclass(t, t.sym(m).owner, t.sym(a).owner)
                                            || (!t.sym(m).isAbstract && MemberOf(t, m, origin)))))
  {
    hide MemberOf, Subclass;
  }

  // A protected method is not overridden from an interface.
  lemma OverridesProtectedExactly(t: Table, m: Sym, a: Sym, origin: Class, checkResult: bool)
    requires WellFormed(t) && t.sym(a).access == Protected
    ensures Overrides(t, m, a, origin, checkResult) <==>
            && !t.sym(m).isConstructor && t.sym(a).kind == Method
            && (m == a
                || (t.isSubSignature(m, a) && Subclass(t, t.sym(m).owner, t.sym(a).owner) && !t.cls(t.sym(m).owner).isInterface
                    && (checkResult ==> t.returnTypeSubstitutable(m, a)))
                || (t.isSubSignature(m, a) && !t.sym(m).isAbstract && t.sym(a).isAbstract && MemberOf(t, m, origin) && !t.cls(origin).isInterface
                    && (checkResult ==> t.resultSubtype(m, a))))
    ensures BinaryOverrides(t, m, a, origin) <==>
            && !t.sym(m).isConstructor && t.sym(a).kind == Method
            && (m == a
                || (t.sameErasure(m, a) && Subclass(t, t.sym(m).owner, t.sym(a).owner) && !t.cls(t.sym(m).owner).isInterface)
                || (t.sameErasure(m, a) && !t.sym(m).isAbstract && MemberOf(t, m, origin) && !t.cls(origin).isInterface))
  {
    hide MemberOf, Subclass;
  }

  predicate IsClassBeside(t: Table, c: Class, d: Class) {
    !t.cls(c).isInterface && t.cls(c).packge == t.cls(d).packge
  }

  // A package-private method is overridden from classes of its package only.
  lemma OverridesPackagePrivateExactly(t: Table, m: Sym, a: Sym, origin: Class, checkResult: bool)
    requires WellFormed(t) && t.sym(a).access == PackagePrivate
    ensures Overrides(t, m, a, origin, checkResult) <==>
            && !t.sym(m).isConstructor && t.sym(a).kind == Method
            && (m == a
                || (t.isSubSignature(m, a) && Subclass(t, t.sym(m).owner, t.sym(a).owner) && IsClassBeside(t, t.sym(m).owner, t.sym(a).owner)
                    && (checkResult ==> t.returnTypeSubstitutable(m, a)))
                || (t.isSubSignature(m, a) && !t.sym(m).isAbstract && t.sym(a).isAbstract && MemberOf(t, m, origin)
                    && IsClassBeside(t, origin, t.sym(a).owner) && (checkResult ==> t.resultSubtype(m, a))))
    ensures BinaryOverrides(t, m, a, origin) <==>
            && !t.sym(m).isConstructor && t.sym(a).kind == Method
            && (m == a
                || (t.sameErasure(m, a) && Subclass(t, t.sym(m).owner, t.sym(a).owner) && IsClassBeside(t, t.sym(m).owner, t.sym(a).owner))
                || (t.sameErasure(m, a) && !t.sym(m).isAbstract && MemberOf(t, m, origin) && IsClassBeside(t, origin, t.sym(a).owner)))
  {
    hide MemberOf, Subclass;
  }

  // A private method is overridden by itself only.
  lemma OverridesPrivate(t: Table, m: Sym, a: Sym, origin: Class, checkResult: bool)
    requires WellFormed(t) && (t.sym(a).access == Private || t.sym(a).access == Mixed) && m != a
    ensures !Overrides(t, m, a, origin, checkResult) && !BinaryOverrides(t, m, a, origin)
  {
  }

  // ---------------------------------------------------------------- the searches, position by position

  // The j-th member of the k-th class on the chain comes before the j'-th of the k'-th.
  predicate Earlier(k: nat, j: nat, k': nat, j': nat) {
    k < k' || (k == k' && j < j')
  }

  // At this position stands a member of that name that is accepted.
  ghost predicate FitsAt(t: Table, chain: seq<Class>, name: int, good: Sym -> bool, k: nat, j: nat) {
    && k < |chain| && j < |t.cls(chain[k]).members|
    && var x := t.cls(chain[k]).members[j]; t.sym(x).name == name && good(x)
  }

  // m is the member at the first such position.
  ghost predicate FirstAt(t: Table, chain: seq<Class>, name: int, good: Sym -> bool, m: Sym, k: nat, j: nat) {
    && FitsAt(t, chain, name, good, k, j) && t.cls(chain[k]).members[j] == m
    && forall k': nat, j': nat :: FitsAt(t, chain, name, good, k', j') ==> !Earlier(k', j', k, j)
  }

  ghost predicate StandsFirst(t: Table, chain: seq<Class>, name: int, good: Sym -> bool, m: Sym) {
    exists k: nat, j: nat :: FirstAt(t, chain, name, good, m, k, j)
  }

  lemma {:induction false} FirstNamed(t: Table, members: seq<Sym>, name: int, good: Sym -> bool) returns (j: nat)
    requires First(Named(t, members, name), good).Some?
    ensures j < |members| && First(Named(t, members, name), good) == Some(members[j])
    ensures t.sym(members[j]).name == name && good(members[j])
    ensures forall i :: 0 <= i < j && t.sym(members[i]).name == name ==> !good(members[i])
  {
    FirstNamedUnfold(t, members, name, good);
    hide First, Named;
    if t.sym(members[0]).name == name && good(members[0]) {
      j := 0;
    } else {
      var i := FirstNamed(t, members[1..], name, good);
      j := i + 1;
    }
  }

  lemma FirstNamedUnfold(t: Table, members: seq<Sym>, name: int, good: Sym -> bool)
    ensures First(Named(t, members, name), good) ==
            if members == [] then None
            else if t.sym(members[0]).name == name && good(members[0]) then Some(members[0])
            else First(Named(t, members[1..], name), good)
  {
    if members != [] && t.sym(members[0]).name == name {
      assert Named(t, members, name)[1..] == Named(t, members[1..], name);
    }
  }

  lemma {:induction false} FirstPosition(t: Table, chain: seq<Class>, name: int, good: Sym -> bool) returns (k: nat, j: nat)
    requires First(Candidates(t, chain, name), good).Some?
    ensures FirstAt(t, chain, name, good, First(Candidates(t, chain, name), good).value, k, j)
  {
    var here := Named(t, t.cls(chain[0]).members, name);
    FirstOfConcat(here, Candidates(t, chain[1..], name), good);
    FirstIsFirst(here, good);
    if First(here, good).Some? {
      k := 0;
      j := FirstNamed(t, t.cls(chain[0]).members, name, good);
      hide Named, First, Candidates;
    } else {
      var i;
      i, j := FirstPosition(t, chain[1..], name, good);
      k := i + 1;
      hide Named, First, Candidates;
      NoneFitsHere(t, chain, name, good);
      forall k': nat, j': nat | FitsAt(t, chain, name, good, k', j')
        ensures k' > 0 && FitsAt(t, chain[1..], name, good, k' - 1, j')
      {
      }
    }
  }

  lemma NoneFitsHere(t: Table, chain: seq<Class>, name: int, good: Sym -> bool)
    requires chain != [] && First(Named(t, t.cls(chain[0]).members, name), good).None?
    ensures forall j: nat :: !FitsAt(t, chain, name, good, 0, j)
  {
    hide First, Named;
    var members := t.cls(chain[0]).members;
    FirstIsFirst(Named(t, members, name), good);
    forall j | 0 <= j < |members| && t.sym(members[j]).name == name
      ensures members[j] in Named(t, members, name)
    {
      assert members[j] in members;
    }
  }

  lemma FirstAtIsFirst(t: Table, chain: seq<Class>, name: int, good: Sym -> bool, m: Sym, k: nat, j: nat)
    requires FirstAt(t, chain, name, good, m, k, j)
    ensures First(Candidates(t, chain, name), good) == Some(m)
  {
    hide First, Candidates;
    CandidatesAre(t, chain, name);
    FirstIsFirst(Candidates(t, chain, name), good);
    assert m in t.cls(chain[k]).members;
    var k', j' := FirstPosition(t, chain, name, good);
    assert !Earlier(k', j', k, j) && !Earlier(k, j, k', j');
  }

  // `implementation` returns m exactly if m stands somewhere on the superclass chain of origin and implements a,
  // and no member of that name before it does, class by class upwards and in scope order within a class.
  lemma ImplementationExactly(t: Table, a: Sym, origin: Class, checkResult: bool, m: Sym)
    requires WellFormed(t)
    ensures Implementation(t, a, origin, checkResult) == Some(m) <==>
            StandsFirst(t, Chain(t, origin), t.sym(a).name, x => Implements(t, x, a, origin, checkResult), m)
  {
    var chain, name, good := Chain(t, origin), t.sym(a).name, x => Implements(t, x, a, origin, checkResult);
    ImplementationIs(t, a, origin, checkResult);
    hide Implements, First, Candidates, FirstAt;
    if First(Candidates(t, chain, name), good) == Some(m) {
      var k, j := FirstPosition(t, chain, name, good);
    }
    if StandsFirst(t, chain, name, good, m) {
      var k: nat, j: nat :| FirstAt(t, chain, name, good, m, k, j);
      FirstAtIsFirst(t, chain, name, good, m, k, j);
    }
  }

  // The same for `binaryImplementation`.
  lemma BinaryImplementationExactly(t: Table, a: Sym, origin: Class, m: Sym)
    requires WellFormed(t)
    ensures BinaryImplementation(t, a, origin) == Some(m) <==>
            StandsFirst(t, Chain(t, origin), t.sym(a).name, x => VmImplements(t, x, a, origin), m)
  {
    var chain, name, good := Chain(t, origin), t.sym(a).name, x => VmImplements(t, x, a, origin);
    BinaryImplementationIs(t, a, origin);
    hide VmImplements, First, Candidates, FirstAt;
    if First(Candidates(t, chain, name), good) == Some(m) {
      var k, j := FirstPosition(t, chain, name, good);
    }
    if StandsFirst(t, chain, name, good, m) {
      var k: nat, j: nat :| FirstAt(t, chain, name, good, m, k, j);
      FirstAtIsFirst(t, chain, name, good, m, k, j);
    }
  }

  // An abstract method that is found is the one looked for, or lies below it.
  lemma AbstractResultLiesBelow(t: Table, a: Sym, origin: Class, checkResult: bool, m: Sym)
    requires WellFormed(t) && Implementation(t, a, origin, checkResult) == Some(m)
    ensures t.sym(m).kind == Method && !t.sym(m).isSynthetic && t.sym(m).owner in Chain(t, origin)
    ensures t.sym(m).isAbstract && m != a ==> Subclass(t, t.sym(m).owner, t.sym(a).owner) && t.isSubSignature(m, a)
  {
    var cands := Candidates(t, Chain(t, origin), t.sym(a).name);
    ImplementationIs(t, a, origin, checkResult);
    FirstIsFirst(cands, x => Implements(t, x, a, origin, checkResult));
    CandidateOwner(t, origin, t.sym(a).name, m);
    hide Chain, Candidates, First;
    if m != a {
      OverriderLiesBelow(t, m, a, origin, checkResult);
    }
  }

  // ---------------------------------------------------------------- dispatch coherence

  // Visible throughout a class hierarchy: public, or protected and seen from classes only.
  predicate WidelyAccessible(t: Table, s: Sym, origin: Class) {
    t.sym(s).access == Public || (t.sym(s).access == Protected && !t.cls(origin).isInterface)
  }

  // Overriding does not depend on the class from which accessible instance methods are seen.
  lemma OverridesSeenFromAbove(t: Table, m: Sym, a: Sym, origin: Class, e: Class, checkResult: bool)
    requires WellFormed(t)
    requires e in Chain(t, origin) && t.sym(m).owner in Chain(t, e)
    requires WidelyAccessible(t, a, origin) && WidelyAccessible(t, m, origin) && IsInstanceMethod(t, m)
    ensures Implements(t, m, a, origin, checkResult) == Implements(t, m, a, e, checkResult)
  {
    hide Chain, Subclass;
    OnChain(t, origin, e);
    OnChain(t, e, t.sym(m).owner);
    SubclassReflexive(t, e);
    SubclassReflexive(t, origin);
    SubclassTransitive(t, origin, e, t.sym(m).owner);
    InstanceMethodsStayVisible(t, m, Chain(t, origin));
    InstanceMethodsStayVisible(t, m, Chain(t, e));
  }

  // Signature and result fit for a direct implementation, or for an inherited one.
  predicate FitsDirectly(t: Table, x: Sym, a: Sym, checkResult: bool) {
    t.isSubSignature(x, a) && (checkResult ==> t.returnTypeSubstitutable(x, a))
  }

  predicate FitsInherited(t: Table, x: Sym, a: Sym, checkResult: bool) {
    t.isSubSignature(x, a) && (checkResult ==> t.resultSubtype(x, a))
  }

  // m is a itself or overrides it in its own class, so it does not matter from where it is seen.
  ghost predicate DirectlyOverrides(t: Table, m: Sym, a: Sym, checkResult: bool) {
    m == a || (OverridesDirectly(t, m, a) && FitsDirectly(t, m, a, checkResult))
  }

  // The access guards of the inherited case: a can be overridden in `origin`, and x is a member there.
  ghost predicate InheritedGuard(t: Table, x: Sym, a: Sym, origin: Class)
    requires WellFormed(t)
  {
    IsOverridableIn(t, a, origin) && MemberOf(t, x, origin)
  }

  // x passes for an implementation of the abstract method a in e by inheritance, but did not below, in origin.
  ghost predicate Newly(t: Table, x: Sym, a: Sym, origin: Class, e: Class, checkResult: bool)
    requires WellFormed(t)
  {
    && t.sym(x).kind == Method && !t.sym(x).isConstructor && !t.sym(x).isSynthetic && !t.sym(x).isAbstract
    && t.sym(a).kind == Method && t.sym(a).isAbstract
    && !DirectlyOverrides(t, x, a, checkResult) && FitsInherited(t, x, a, checkResult)
    && InheritedGuard(t, x, a, e) && !InheritedGuard(t, x, a, origin)
  }

  // Of a candidate that does not implement a from origin: it does from e exactly if it newly passes.
  lemma NewlyImplements(t: Table, x: Sym, a: Sym, origin: Class, e: Class, checkResult: bool)
    requires WellFormed(t) && !Implements(t, x, a, origin, checkResult)
    ensures Implements(t, x, a, e, checkResult) <==> Newly(t, x, a, origin, e, checkResult)
  {
    hide IsOverridableIn, MemberOf, Subclass;
  }

  // The method found from origin implements a from e exactly if it does so directly or a can be overridden in e.
  lemma StillImplements(t: Table, m: Sym, a: Sym, origin: Class, e: Class, checkResult: bool)
    requires WellFormed(t) && Implements(t, m, a, origin, checkResult)
    requires e in Chain(t, origin) && t.sym(m).owner in Chain(t, e) && !t.cls(e).isInterface
    ensures Implements(t, m, a, e, checkResult) <==> DirectlyOverrides(t, m, a, checkResult) || IsOverridableIn(t, a, e)
  {
    OnChain(t, origin, e);
    OnChain(t, e, t.sym(m).owner);
    SubclassReflexive(t, origin);
    SubclassReflexive(t, e);
    if MemberOf(t, m, origin) {
      MembershipIsClosed(t, m, origin, e);
    }
    hide Chain, MemberOf, Subclass, IsOverridableIn;
  }

  lemma {:induction false} FirstAgain(cands: seq<Sym>, m: Sym, good: Sym -> bool, fine: Sym -> bool, either: Sym -> bool)
    requires First(cands, good) == Some(m) && either(m)
    requires forall x :: x in cands && !good(x) && x != m ==> (fine(x) <==> either(x))
    ensures First(cands, fine) == Some(m) <==> fine(m) && First(cands, either) == Some(m)
  {
    if !good(cands[0]) {
      assert forall x :: x in cands[1..] ==> x in cands;
      assert cands[0] in cands && m != cands[0] by { FirstIsFirst(cands, good); }
      FirstAgain(cands[1..], m, good, fine, either);
      FirstIsFirst(cands, fine);
    } else {
      FirstIsFirst(cands, fine);
    }
  }

  lemma ChainSplit(t: Table, origin: Class, e: Class) returns (n: nat)
    requires WellFormed(t) && e in Chain(t, origin)
    ensures n < |Chain(t, origin)| && Chain(t, origin)[n..] == Chain(t, e)
    ensures Chain(t, origin) == Chain(t, origin)[..n] + Chain(t, e)
  {
    hide *;
    var chain := Chain(t, origin);
    n :| n < |chain| && chain[n] == e;
    ChainSuffix(t, origin, n);
    assert chain == chain[..n] + chain[n..];
  }

  // The search from a class on the chain sees the same candidates, without those of the classes below.
  lemma FoundAgain(t: Table, a: Sym, origin: Class, m: Sym, e: Class, checkResult: bool)
    requires WellFormed(t) && Implementation(t, a, origin, checkResult) == Some(m)
    requires e in Chain(t, origin) && t.sym(m).owner in Chain(t, e)
    ensures First(Candidates(t, Chain(t, e), t.sym(a).name), x => Implements(t, x, a, origin, checkResult)) == Some(m)
  {
    hide *;
    var n := ChainSplit(t, origin, e);
    var name := t.sym(a).name;
    ImplementationIs(t, a, origin, checkResult);
    var low, high := Chain(t, origin)[..n], Chain(t, e);
    CandidatesOfConcat(t, low, high, name);
    var good := x => Implements(t, x, a, origin, checkResult);
    FirstOfConcat(Candidates(t, low, name), Candidates(t, high, name), good);
    FirstIsFirst(Candidates(t, low, name), good);
    OwnersBelow(t, origin, n, name, m);
  }

  // Dispatch on the way up, exactly. If dispatch from origin finds m in class D, then dispatch from a class e
  // between origin and D finds m again if and only if m still implements a there, because it overrides it
  // directly or because a can be overridden in e, and no candidate before m newly passes the inherited guard.
  lemma DispatchIsCoherentExactly(t: Table, a: Sym, origin: Class, m: Sym, e: Class, checkResult: bool)
    requires WellFormed(t)
    requires Implementation(t, a, origin, checkResult) == Some(m)
    requires e in Chain(t, origin) && t.sym(m).owner in Chain(t, e) && !t.cls(e).isInterface
    ensures Implementation(t, a, e, checkResult) == Some(m) <==>
            && (DirectlyOverrides(t, m, a, checkResult) || IsOverridableIn(t, a, e))
            && First(Candidates(t, Chain(t, e), t.sym(a).name), x => x == m || Newly(t, x, a, origin, e, checkResult)) == Some(m)
  {
    hide *;
    var cands := Candidates(t, Chain(t, e), t.sym(a).name);
    var good, fine := x => Implements(t, x, a, origin, checkResult), x => Implements(t, x, a, e, checkResult);
    var either := x => x == m || Newly(t, x, a, origin, e, checkResult);
    FoundAgain(t, a, origin, m, e, checkResult);
    FirstIsFirst(cands, good);
    ImplementationIs(t, a, e, checkResult);
    forall x | x in cands && !good(x)
      ensures x != m ==> (fine(x) <==> either(x))
    {
      NewlyImplements(t, x, a, origin, e, checkResult);
    }
    StillImplements(t, m, a, origin, e, checkResult);
    FirstAgain(cands, m, good, fine, either);
  }

  lemma {:induction false} FirstPresent(cands: seq<Sym>, m: Sym, good: Sym -> bool)
    requires m in cands && forall x :: x in cands ==> (good(x) <==> x == m)
    ensures First(cands, good) == Some(m)
  {
    hide First;
    assert good(m);
    FirstIsFirst(cands, good);
    assert First(cands, good).value == m;
  }

  // In particular, dispatch is coherent for accessible instance methods, whatever the signature and result
  // relations are: nothing passes newly, and a can be overridden everywhere.
  lemma DispatchIsCoherent(t: Table, a: Sym, origin: Class, m: Sym, e: Class, checkResult: bool)
    requires WellFormed(t)
    requires Implementation(t, a, origin, checkResult) == Some(m)
    requires e in Chain(t, origin) && t.sym(m).owner in Chain(t, e)
    requires WidelyAccessible(t, a, origin)
    requires forall x :: x in Candidates(t, Chain(t, origin), t.sym(a).name) && t.sym(x).kind == Method ==>
                         WidelyAccessible(t, x, origin) && IsInstanceMethod(t, x)
    ensures Implementation(t, a, e, checkResult) == Some(m)
  {
    OnChain(t, origin, e);
    if !t.cls(e).isInterface {
      var cands := Candidates(t, Chain(t, e), t.sym(a).name);
      assert IsOverridableIn(t, a, e);
      hide *;
      DispatchIsCoherentExactly(t, a, origin, m, e, checkResult);
      FoundAgain(t, a, origin, m, e, checkResult);
      FirstIsFirst(cands, x => Implements(t, x, a, origin, checkResult));
      forall x | x in cands
        ensures !Newly(t, x, a, origin, e, checkResult)
      {
        CandidateOwner(t, e, t.sym(a).name, x);
        CandidateFromBelow(t, origin, e, t.sym(a).name, x);
        if t.sym(x).kind == Method {
          OverridesSeenFromAbove(t, x, a, origin, e, checkResult);
        }
        NewlyIsNew(t, x, a, origin, e, checkResult);
      }
      FirstPresent(cands, m, x => x == m || Newly(t, x, a, origin, e, checkResult));
    }
  }

  lemma NewlyIsNew(t: Table, x: Sym, a: Sym, origin: Class, e: Class, checkResult: bool)
    requires WellFormed(t)
    ensures Newly(t, x, a, origin, e, checkResult) ==>
              t.sym(x).kind == Method && Implements(t, x, a, e, checkResult) && !Implements(t, x, a, origin, checkResult)
  {
    hide IsOverridableIn, MemberOf, Subclass;
  }

  // The candidates of a class on the chain are among those of the start of the chain.
  lemma CandidateFromBelow(t: Table, origin: Class, e: Class, name: int, x: Sym)
    requires WellFormed(t) && e in Chain(t, origin) && x in Candidates(t, Chain(t, e), name)
    ensures x in Candidates(t, Chain(t, origin), name)
  {
    hide *;
    var n := ChainSplit(t, origin, e);
    CandidatesOfConcat(t, Chain(t, origin)[..n], Chain(t, e), name);
  }

  // Members declared below position n do not belong to classes from position n on.
  lemma OwnersBelow(t: Table, origin: Class, n: nat, name: int, m: Sym)
    requires WellFormed(t) && n < |Chain(t, origin)|
    requires t.sym(m).owner in Chain(t, origin)[n..]
    ensures m !in Candidates(t, Chain(t, origin)[..n], name)
  {
    hide Chain;
    var chain := Chain(t, origin);
    CandidatesAre(t, chain[..n], name);
    if m in Candidates(t, chain[..n], name) {
      var k :| 0 <= k < |chain[..n]| && m in t.cls(chain[..n][k]).members;
      var j :| 0 <= j < |chain[n..]| && chain[n..][j] == t.sym(m).owner;
      ChainDistinct(t, origin, k, n + j);
    }
  }

  // ---------------------------------------------------------------- the two searches agree

  // Signatures and results are both compared by erased type, and no method of that name is synthetic.
  ghost predicate ErasedFragment(t: Table, a: Sym, cands: seq<Sym>) {
    forall m :: m in cands ==>
      && !t.sym(m).isSynthetic
      && (t.isSubSignature(m, a) && t.returnTypeSubstitutable(m, a) <==> t.sameErasure(m, a))
      && (t.isSubSignature(m, a) && t.resultSubtype(m, a) <==> t.sameErasure(m, a))
  }

  // The VM lets m implement a, but only by the guard that the language restricts to abstract methods.
  ghost predicate VmOnly(t: Table, m: Sym, a: Sym, origin: Class)
    requires WellFormed(t)
  {
    && t.sym(m).kind == Method && !t.sym(m).isConstructor && t.sym(a).kind == Method
    && m != a && !(OverridesDirectly(t, m, a) && t.sameErasure(m, a))
    && VmInherits(t, m, a, origin) && !t.sym(a).isAbstract
  }

  // The language-level search is the VM-level search without the VM-only methods.
  lemma SearchesCompared(t: Table, m: Sym, a: Sym, origin: Class, cands: seq<Sym>)
    requires WellFormed(t) && ErasedFragment(t, a, cands) && m in cands
    ensures Implements(t, m, a, origin, true) <==> VmImplements(t, m, a, origin) && !VmOnly(t, m, a, origin)
    ensures VmOnly(t, m, a, origin) ==> VmImplements(t, m, a, origin)
  {
    hide IsOverridableIn, Subclass, MemberOf;
  }

  lemma {:induction false} FirstOfTwo(cands: seq<Sym>, vm: Sym -> bool, vmOnly: Sym -> bool, lang: Sym -> bool)
    requires forall m :: m in cands ==> (lang(m) <==> vm(m) && !vmOnly(m)) && (vmOnly(m) ==> vm(m))
    requires First(cands, vm).Some?
    ensures First(cands, lang) == First(cands, vm) <==> !vmOnly(First(cands, vm).value)
  {
    FirstIsFirst(cands, lang);
    FirstIsFirst(cands, vm);
    assert forall m :: m in cands <==> m == cands[0] || m in cands[1..];
    if !vm(cands[0]) {
      FirstOfTwo(cands[1..], vm, vmOnly, lang);
    } else if vmOnly(cands[0]) {
      FirstIsFirst(cands[1..], lang);
    }
  }

  // The two lookups return the same unless the method the VM finds is one that only the VM admits.
  lemma LookupsAgreeAtFound(t: Table, a: Sym, origin: Class)
    requires WellFormed(t) && ErasedFragment(t, a, Candidates(t, Chain(t, origin), t.sym(a).name))
    ensures Implementation(t, a, origin, true) == BinaryImplementation(t, a, origin) <==>
            !exists m :: BinaryImplementation(t, a, origin) == Some(m) && VmOnly(t, m, a, origin)
  {
    var cands := Candidates(t, Chain(t, origin), t.sym(a).name);
    var vm, vmOnly, lang := m => VmImplements(t, m, a, origin), m => VmOnly(t, m, a, origin), m => Implements(t, m, a, origin, true);
    forall m | m in cands
      ensures (lang(m) <==> vm(m) && !vmOnly(m)) && (vmOnly(m) ==> vm(m))
    {
      SearchesCompared(t, m, a, origin, cands);
    }
    hide *;
    ImplementationIs(t, a, origin, true);
    BinaryImplementationIs(t, a, origin);
    FirstIsFirst(cands, vm);
    FirstIsFirst(cands, lang);
    if First(cands, vm).Some? {
      FirstOfTwo(cands, vm, vmOnly, lang);
    }
  }

  // Every candidate that only the VM admits stands behind one that the language rules admit.
  ghost predicate Preceded(cands: seq<Sym>, vmOnly: Sym -> bool, lang: Sym -> bool) {
    forall j :: 0 <= j < |cands| && vmOnly(cands[j]) ==> exists i :: 0 <= i < j && lang(cands[i])
  }

  lemma {:induction false} FirstsAgreeExactly(cands: seq<Sym>, vm: Sym -> bool, vmOnly: Sym -> bool, lang: Sym -> bool)
    requires forall m :: m in cands ==> (lang(m) <==> vm(m) && !vmOnly(m)) && (vmOnly(m) ==> vm(m))
    ensures First(cands, lang) == First(cands, vm) <==> Preceded(cands, vmOnly, lang)
  {
    if cands != [] {
      var head, tail := cands[0], cands[1..];
      assert head in cands && (lang(head) <==> vm(head) && !vmOnly(head)) && (vmOnly(head) ==> vm(head));
      if lang(head) {
        assert First(cands, lang) == Some(head) == First(cands, vm);
        assert Preceded(cands, vmOnly, lang);
      } else if vm(head) {
        FirstIsFirst(cands, lang);
        assert First(cands, vm) == Some(head);
        assert vmOnly(cands[0]);
        assert !Preceded(cands, vmOnly, lang);
      } else {
        FirstsAgreeExactly(tail, vm, vmOnly, lang);
        PrecededInTail(cands, vmOnly, lang);
      }
    }
  }

  lemma PrecededInTail(cands: seq<Sym>, vmOnly: Sym -> bool, lang: Sym -> bool)
    requires cands != [] && !vmOnly(cands[0]) && !lang(cands[0])
    ensures Preceded(cands, vmOnly, lang) <==> Preceded(cands[1..], vmOnly, lang)
  {
    var tail := cands[1..];
    if Preceded(cands, vmOnly, lang) {
      forall j | 0 <= j < |tail| && vmOnly(tail[j])
        ensures exists i :: 0 <= i < j && lang(tail[i])
      {
        assert tail[j] == cands[j + 1];
        var i :| 0 <= i < j + 1 && lang(cands[i]);
        assert cands[i] == tail[i - 1];
      }
    }
    if Preceded(tail, vmOnly, lang) {
      forall j | 0 <= j < |cands| && vmOnly(cands[j])
        ensures exists i :: 0 <= i < j && lang(cands[i])
      {
        assert cands[j] == tail[j - 1];
        var i :| 0 <= i < j - 1 && lang(tail[i]);
        assert tail[i] == cands[i + 1];
      }
    }
  }

  // Exactly, in terms of the candidates: for every method symbol a the two lookups return the same symbol or
  // both none if and only if each candidate that only the VM admits, letting it inherit the implementation of
  // a concrete method, stands behind one that implements a by the language rules.
  lemma LookupsAgreeExactly(t: Table, a: Sym, origin: Class)
    requires WellFormed(t) && ErasedFragment(t, a, Candidates(t, Chain(t, origin), t.sym(a).name))
    ensures var cands := Candidates(t, Chain(t, origin), t.sym(a).name);
            Implementation(t, a, origin, true) == BinaryImplementation(t, a, origin) <==>
            forall j :: 0 <= j < |cands| && VmOnly(t, cands[j], a, origin) ==>
                          exists i :: 0 <= i < j && Implements(t, cands[i], a, origin, true)
  {
    var cands := Candidates(t, Chain(t, origin), t.sym(a).name);
    var vm, vmOnly, lang := m => VmImplements(t, m, a, origin), m => VmOnly(t, m, a, origin), m => Implements(t, m, a, origin, true);
    hide VmImplements, VmOnly, Implements, Candidates, Chain, First, WellFormed;
    forall m | m in cands
      ensures (lang(m) <==> vm(m) && !vmOnly(m)) && (vmOnly(m) ==> vm(m))
    {
      SearchesCompared(t, m, a, origin, cands);
    }
    ImplementationIs(t, a, origin, true);
    BinaryImplementationIs(t, a, origin);
    FirstsAgreeExactly(cands, vm, vmOnly, lang);
    hide Implementation, BinaryImplementation;
  }

  // In particular they agree on abstract methods ...
  lemma {:induction false} LookupsAgreeOnAbstract(t: Table, a: Sym, origin: Class)
    requires WellFormed(t) && ErasedFragment(t, a, Candidates(t, Chain(t, origin), t.sym(a).name))
    requires t.sym(a).isAbstract
    ensures Implementation(t, a, origin, true) == BinaryImplementation(t, a, origin)
  {
    LookupsAgreeAtFound(t, a, origin);
    hide Implementation, BinaryImplementation;
  }

  // ... and on public or protected methods of the superclasses, abstract or not.
  lemma {:induction false} LookupsAgreeOnAccessible(t: Table, a: Sym, origin: Class)
    requires WellFormed(t) && ErasedFragment(t, a, Candidates(t, Chain(t, origin), t.sym(a).name))
    requires t.sym(a).kind == Method && !t.sym(a).isConstructor
    requires t.sym(a).owner in Chain(t, origin) && a in t.cls(t.sym(a).owner).members
    requires WidelyAccessible(t, a, origin)
    ensures Implementation(t, a, origin, true) == BinaryImplementation(t, a, origin)
  {
    LookupsAgreeAtFound(t, a, origin);
    if m :| BinaryImplementation(t, a, origin) == Some(m) && VmOnly(t, m, a, origin) {
      FoundAtOrBelowOwner(t, a, origin, m);
      OverridesBelowOwner(t, m, a, origin);
    }
  }

  // The VM search gets no further than the class that declares a, since a implements itself.
  lemma FoundAtOrBelowOwner(t: Table, a: Sym, origin: Class, m: Sym)
    requires WellFormed(t) && t.sym(a).kind == Method && !t.sym(a).isConstructor
    requires t.sym(a).owner in Chain(t, origin) && a in t.cls(t.sym(a).owner).members
    requires BinaryImplementation(t, a, origin) == Some(m)
    ensures Subclass(t, t.sym(m).owner, t.sym(a).owner)
    ensures t.sym(m).owner in Chain(t, origin)
  {
    var chain, name := Chain(t, origin), t.sym(a).name;
    var n: nat :| n < |chain| && chain[n] == t.sym(a).owner;
    var vm := x => VmImplements(t, x, a, origin);
    assert vm(a);
    BinaryImplementationIs(t, a, origin);
    hide *;
    var k := FoundByPosition(t, chain, n, name, a, m, vm);
    MemberKnowsOwner(t, chain[k], m);
    if k < n {
      ChainGoesUp(t, origin, k, n);
    } else {
      SubclassReflexive(t, chain[n]);
    }
  }

  lemma FoundByPosition(t: Table, chain: seq<Class>, n: nat, name: int, a: Sym, m: Sym, good: Sym -> bool) returns (k: nat)
    requires n < |chain| && a in t.cls(chain[n]).members && t.sym(a).name == name && good(a)
    requires First(Candidates(t, chain, name), good) == Some(m)
    ensures k <= n && m in t.cls(chain[k]).members
  {
    hide *;
    var low, high := chain[..n + 1], chain[n + 1..];
    assert chain == low + high && low[n] == chain[n];
    CandidatesOfConcat(t, low, high, name);
    FirstOfConcat(Candidates(t, low, name), Candidates(t, high, name), good);
    CandidatesAre(t, low, name);
    FirstIsFirst(Candidates(t, low, name), good);
    k :| 0 <= k < |low| && m in t.cls(low[k]).members;
  }

  lemma MemberKnowsOwner(t: Table, c: Class, m: Sym)
    requires WellFormed(t) && m in t.cls(c).members
    ensures t.sym(m).owner == c
  {
  }

  lemma OverridesBelowOwner(t: Table, m: Sym, a: Sym, origin: Class)
    requires WellFormed(t) && WidelyAccessible(t, a, origin)
    requires t.sym(m).owner in Chain(t, origin) && Subclass(t, t.sym(m).owner, t.sym(a).owner)
    ensures OverridesDirectly(t, m, a)
  {
    OnChain(t, origin, t.sym(m).owner);
  }

  // ---------------------------------------------------------------- package-private methods break both

  // Object 0; class 1 in package 1 declares the package-private method 0; class 2 extends it in package 2
  // and declares the public method 1 of the same signature; class 3 extends class 2, back in package 1.
  function PackageTable(isAbstract: bool): Table {
    Table(
      c => if c == 1 then ClassInfo(false, false, 1, Some(0), [], [0])
           else if c == 2 then ClassInfo(false, false, 2, Some(1), [], [1])
           else if c == 3 then ClassInfo(false, false, 1, Some(2), [], [])
           else ClassInfo(false, false, 0, if c == 0 then None else Some(0), [], []),
      s => if s == 0 then SymInfo(0, Method, 1, PackagePrivate, false, isAbstract, false, false)
           else SymInfo(0, Method, 2, Public, false, false, false, false),
      0,
      (m, n) => true, (m, n) => true, (m, n) => true, (m, n) => true)
  }

  lemma PackageTableIsWellFormed(isAbstract: bool)
    ensures WellFormed(PackageTable(isAbstract))
  {
    var rank: Class -> nat := c => if 0 <= c < 3 then c else 3;
    forall c
      ensures ClassOk(PackageTable(isAbstract), c, rank)
    {
    }
    WellFormedByClass(PackageTable(isAbstract), rank);
    hide *;
  }

  lemma PackagePaths(isAbstract: bool)
    ensures var t := PackageTable(isAbstract);
            Subclass(t, 3, 2) && Subclass(t, 2, 1) && !Subclass(t, 1, 2)
  {
    var t := PackageTable(isAbstract);
    PackageTableIsWellFormed(isAbstract);
    assert Path(t, [3, 2], 3, 2) && Path(t, [2, 1], 2, 1);
    hide Subclass, WellFormed;
    if Subclass(t, 1, 2) {
      SubclassAntisymmetric(t, 1, 2);
    }
  }

  lemma PackageCandidates(isAbstract: bool)
    ensures WellFormed(PackageTable(isAbstract))
    ensures var t := PackageTable(isAbstract);
            && Candidates(t, Chain(t, 3), 0) == [1, 0]
            && Candidates(t, Chain(t, 2), 0) == [1, 0]
  {
    hide WellFormed, Chain, Candidates;
    var t := PackageTable(isAbstract);
    PackageTableIsWellFormed(isAbstract);
    ChainUnfold(t, 3, 0);
    ChainUnfold(t, 2, 0);
    ChainUnfold(t, 1, 0);
    ChainUnfold(t, 0, 0);
  }

  lemma FirstOfPair(x: Sym, y: Sym, good: Sym -> bool)
    ensures First([x, y], good) == if good(x) then Some(x) else if good(y) then Some(y) else None
  {
    assert [x, y][1..] == [y] && [y][1..] == [];
    assert First([y], good) == if good(y) then Some(y) else None;
  }

  // Who implements method 0, seen from class 3 and from class 2.
  lemma PackageImplements(isAbstract: bool)
    ensures WellFormed(PackageTable(isAbstract))
    ensures var t := PackageTable(isAbstract);
            && (Implements(t, 1, 0, 3, true) <==> isAbstract)
            && !Implements(t, 1, 0, 2, true)
            && Implements(t, 0, 0, 3, true) && Implements(t, 0, 0, 2, true)
            && VmImplements(t, 1, 0, 3)
  {
    var t := PackageTable(isAbstract);
    PackageTableIsWellFormed(isAbstract);
    PackagePaths(isAbstract);
    hide Subclass, WellFormed, Chain, Hidden;
    InstanceMethodsStayVisible(t, 1, Chain(t, 3));
    assert MemberOf(t, 1, 3);
    hide MemberOf;
  }

  // Dispatch of an abstract package-private method: found in class 2 when seen from class 3, but not
  // when seen from class 2 itself, so DispatchIsCoherent needs its accessibility condition.
  lemma DispatchNotCoherentForPackagePrivate()
    ensures var t := PackageTable(true);
            && WellFormed(t) && 2 in Chain(t, 3)
            && Implementation(t, 0, 3, true) == Some(1) && t.sym(1).owner == 2
            && Implementation(t, 0, 2, true) == Some(0)
  {
    var t := PackageTable(true);
    PackageTableIsWellFormed(true);
    PackagePaths(true);
    OnChain(t, 3, 2);
    hide Subclass, WellFormed, Chain, Candidates, Implements, First;
    PackageCandidates(true);
    PackageImplements(true);
    FirstOfPair(1, 0, m => Implements(t, m, 0, 3, true));
    FirstOfPair(1, 0, m => Implements(t, m, 0, 2, true));
  }

  // For the concrete method the VM finds the implementation in class 2, the language rules do not.
  lemma LookupsDisagreeForPackagePrivate()
    ensures var t := PackageTable(false);
            && WellFormed(t)
            && ErasedFragment(t, 0, Candidates(t, Chain(t, 3), 0))
            && Implementation(t, 0, 3, true) == Some(0)
            && BinaryImplementation(t, 0, 3) == Some(1)
  {
    var t := PackageTable(false);
    PackageTableIsWellFormed(false);
    hide Subclass, WellFormed, Chain, Candidates, Implements, VmImplements, First;
    PackageCandidates(false);
    PackageImplements(false);
    FirstOfPair(1, 0, m => Implements(t, m, 0, 3, true));
    FirstOfPair(1, 0, m => VmImplements(t, m, 0, 3));
  }
}
